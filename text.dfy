/**
 * String helpers with Java's meaning: ASCII case folding (what
 * Pattern.CASE_INSENSITIVE does by default), substring containment
 * (a `.*w.*` match) and Pattern.split on a literal separator.
 */
module Text {

  /** Lower-cases one ASCII letter and leaves every other character alone. */
  function LowerChar(c: char): char {
    if 'A' <= c <= 'Z' then (c as int + 32) as char else c
  }

  /** Lower-cases a string character by character. */
  function Lower(s: string): (r: string)
    ensures |r| == |s|
    ensures forall i :: 0 <= i < |s| ==> r[i] == LowerChar(s[i])
  {
    seq(|s|, i requires 0 <= i < |s| => LowerChar(s[i]))
  }

  /** `w` occurs in `s` starting at index `k`. */
  predicate OccursAt(s: string, w: string, k: int) {
    0 <= k && k + |w| <= |s| && s[k..k + |w|] == w
  }

  /** `w` is a substring of `s`. */
  predicate Contains(s: string, w: string) {
    exists k :: 0 <= k <= |s| - |w| && OccursAt(s, w, k)
  }

  /** `s` matches the pattern `.*` + quote(w) + `.*` with CASE_INSENSITIVE. */
  predicate ContainsIgnoreCase(s: string, w: string) {
    Contains(Lower(s), Lower(w))
  }

  predicate StartsWith(s: string, prefix: string) {
    |prefix| <= |s| && s[..|prefix|] == prefix
  }

  predicate NoDuplicates<T(==)>(s: seq<T>) {
    forall i, j :: 0 <= i < j < |s| ==> s[i] != s[j]
  }

  /** The inverse of splitting: the pieces with `sep` between neighbours. */
  function Join(pieces: seq<string>, sep: string): string {
    if |pieces| == 0 then ""
    else if |pieces| == 1 then pieces[0]
    else pieces[0] + sep + Join(pieces[1..], sep)
  }

  /**
   * The pieces between the leftmost non-overlapping occurrences of `sep`
   * in `s`, scanning left to right, empty pieces included.
   */
  function Pieces(s: string, sep: string): (r: seq<string>)
    requires |sep| > 0
    ensures |r| >= 1
    ensures StartsWith(s, r[0])
    decreases |s|
  {
    if |s| < |sep| then [s]
    else if s[..|sep|] == sep then [""] + Pieces(s[|sep|..], sep)
    else
      var t := Pieces(s[1..], sep);
      [[s[0]] + t[0]] + t[1..]
  }

  function DropTrailingEmpty(ps: seq<string>): (r: seq<string>)
    ensures |r| <= |ps| && r == ps[..|r|]
  {
    if |ps| > 0 && ps[|ps| - 1] == "" then DropTrailingEmpty(ps[..|ps| - 1]) else ps
  }

  /**
   * Pattern.split(s) for the pattern Pattern.quote(sep): the input itself when
   * the pattern never matches, otherwise the pieces with trailing empty ones
   * removed. An empty separator matches between every two characters.
   */
  function Split(s: string, sep: string): seq<string> {
    if s == "" then [""]
    else if sep == "" then seq(|s|, i requires 0 <= i < |s| => [s[i]])
    else DropTrailingEmpty(Pieces(s, sep))
  }

  /** Splitting and joining again gives back the input. */
  lemma {:induction false} JoinPieces(s: string, sep: string)
    requires |sep| > 0
    ensures Join(Pieces(s, sep), sep) == s
    decreases |s|
  {
    var r := Pieces(s, sep);
    if |s| < |sep| {
    } else if s[..|sep|] == sep {
      var t := Pieces(s[|sep|..], sep);
      JoinPieces(s[|sep|..], sep);
      assert r == [""] + t && r[1..] == t;
      calc {
        Join(r, sep);
        "" + sep + Join(t, sep);
        sep + s[|sep|..];
        s;
      }
    } else {
      var t := Pieces(s[1..], sep);
      JoinPieces(s[1..], sep);
      JoinCons(s[0], t, sep);
      assert s == [s[0]] + s[1..];
    }
  }

  /** A character in front of the first piece comes out in front of the join. */
  lemma JoinCons(c: char, t: seq<string>, sep: string)
    requires |t| >= 1
    ensures Join([[c] + t[0]] + t[1..], sep) == [c] + Join(t, sep)
  {
    var r := [[c] + t[0]] + t[1..];
    if |t| > 1 {
      assert r[1..] == t[1..];
    }
  }

  /** No piece contains the separator. */
  lemma {:induction false} PiecesAvoidSeparator(s: string, sep: string)
    requires |sep| > 0
    ensures forall i :: 0 <= i < |Pieces(s, sep)| ==> !Contains(Pieces(s, sep)[i], sep)
    decreases |s|
  {
    var r := Pieces(s, sep);
    if |s| < |sep| {
      forall k | OccursAt(s, sep, k) ensures false { }
    } else if s[..|sep|] == sep {
      PiecesAvoidSeparator(s[|sep|..], sep);
      assert r == [""] + Pieces(s[|sep|..], sep);
      forall i | 0 <= i < |r| ensures !Contains(r[i], sep) {
        if i == 0 {
          forall k | OccursAt(r[0], sep, k) ensures false { }
        } else {
          assert r[i] == Pieces(s[|sep|..], sep)[i - 1];
        }
      }
    } else {
      var t := Pieces(s[1..], sep);
      PiecesAvoidSeparator(s[1..], sep);
      var p := [s[0]] + t[0];
      assert r == [p] + t[1..];
      assert StartsWith(s[1..], t[0]);
      assert p == s[..|p|];
      forall k | OccursAt(p, sep, k) ensures false {
        if k > 0 {
          assert p[k..k + |sep|] == t[0][k - 1..k - 1 + |sep|];
          assert OccursAt(t[0], sep, k - 1);
        }
      }
      forall i | 0 <= i < |r| ensures !Contains(r[i], sep) {
        if i > 0 { assert r[i] == t[i]; }
      }
    }
  }

  /** Dropping trailing empty pieces leaves nothing exactly when every piece is empty. */
  lemma {:induction false} DropTrailingEmptyIsEmpty(ps: seq<string>)
    ensures DropTrailingEmpty(ps) == [] <==> forall i :: 0 <= i < |ps| ==> ps[i] == ""
    decreases |ps|
  {
    if |ps| > 0 && ps[|ps| - 1] == "" {
      DropTrailingEmptyIsEmpty(ps[..|ps| - 1]);
      assert forall i :: 0 <= i < |ps| - 1 ==> ps[..|ps| - 1][i] == ps[i];
    }
  }

  /** For a one-character separator every piece is empty iff the input is that character repeated. */
  lemma {:induction false} PiecesAllEmpty(s: string, c: char)
    ensures (forall i :: 0 <= i < |Pieces(s, [c])| ==> Pieces(s, [c])[i] == "")
            <==> (forall i :: 0 <= i < |s| ==> s[i] == c)
    decreases |s|
  {
    var r := Pieces(s, [c]);
    if |s| == 0 {
    } else if s[..1] == [c] {
      var t := Pieces(s[1..], [c]);
      PiecesAllEmpty(s[1..], c);
      assert r == [""] + t;
      assert (forall i :: 0 <= i < |r| ==> r[i] == "") <==> (forall i :: 0 <= i < |t| ==> t[i] == "") by {
        assert forall i :: 0 < i < |r| ==> r[i] == t[i - 1];
        assert forall i :: 0 <= i < |t| ==> t[i] == r[i + 1];
      }
      assert (forall i :: 0 <= i < |s| ==> s[i] == c) <==> (forall i :: 0 <= i < |s[1..]| ==> s[1..][i] == c) by {
        assert s[0] == c;
        assert forall i :: 0 < i < |s| ==> s[i] == s[1..][i - 1];
        assert forall i :: 0 <= i < |s[1..]| ==> s[1..][i] == s[i + 1];
      }
    } else {
      assert s[0] != c;
      assert |r[0]| > 0;
    }
  }

  /**
   * Splitting on one character yields no pieces at all exactly when the input
   * is non-empty and consists of that character only.
   */
  lemma SplitIsEmpty(s: string, c: char)
    ensures Split(s, [c]) == [] <==> (|s| > 0 && forall i :: 0 <= i < |s| ==> s[i] == c)
  {
    if s != "" {
      DropTrailingEmptyIsEmpty(Pieces(s, [c]));
      PiecesAllEmpty(s, c);
    }
  }

  /**
   * The first piece of a non-empty split of a non-empty string is the longest
   * prefix without the separator: it starts the input, avoids the separator
   * and is either the whole input or followed by the separator.
   */
  lemma FirstPiece(s: string, sep: string)
    requires |sep| > 0 && Split(s, sep) != []
    ensures StartsWith(s, Split(s, sep)[0])
    ensures !Contains(Split(s, sep)[0], sep)
    ensures var p := Split(s, sep)[0]; p == s || OccursAt(s, sep, |p|)
  {
    if s == "" {
      forall k | OccursAt("", sep, k) ensures false { }
    } else {
      PiecesAvoidSeparator(s, sep);
      FirstPieceFollowedBySeparator(s, sep);
    }
  }

  /**
   * A line that is a word without spaces, or starts with such a word and a
   * space, has that word as its first space-separated token.
   */
  lemma SplitFirstWord(line: string, w: string)
    requires |w| > 0 && forall i :: 0 <= i < |w| ==> w[i] != ' '
    requires line == w || StartsWith(line, w + " ")
    ensures Split(line, " ") != [] && Split(line, " ")[0] == w
  {
    assert line[0] == w[0];
    SplitIsEmpty(line, ' ');
    FirstPiece(line, " ");
    WordBeforeSpace(line, w, Split(line, " ")[0]);
  }

  /** The longest space-free prefix of a line starting with a space-free word and a space is that word. */
  lemma WordBeforeSpace(line: string, w: string, p: string)
    requires forall i :: 0 <= i < |w| ==> w[i] != ' '
    requires line == w || StartsWith(line, w + " ")
    requires StartsWith(line, p) && !Contains(p, " ") && (p == line || OccursAt(line, " ", |p|))
    ensures p == w
  {
    NoSpaceAt(p);
    assert forall i :: 0 <= i < |w| ==> line[i] == w[i] by {
      if line != w {
        assert forall i :: 0 <= i < |w| ==> line[..|w| + 1][i] == line[i] && (w + " ")[i] == w[i];
      }
    }
    assert |p| <= |w| by {
      if |line| > |w| {
        assert line[|w|] == ' ';
      }
    }
    assert |p| >= |w| by {
      if p != line {
        assert line[|p|..|p| + 1] == " ";
        assert line[|p|] == ' ';
      }
    }
    assert p == line[..|w|];
  }

  lemma NoSpaceAt(p: string)
    ensures !Contains(p, " ") ==> forall k :: 0 <= k < |p| ==> p[k] != ' '
  {
    forall k | 0 <= k < |p| && p[k] == ' ' ensures Contains(p, " ") {
      assert p[k..k + 1] == " ";
      assert OccursAt(p, " ", k);
    }
  }

  lemma {:induction false} FirstPieceFollowedBySeparator(s: string, sep: string)
    requires |sep| > 0
    ensures var p := Pieces(s, sep)[0]; (|Pieces(s, sep)| == 1 && p == s) || OccursAt(s, sep, |p|)
    decreases |s|
  {
    if |s| < |sep| {
    } else if s[..|sep|] == sep {
    } else {
      var t := Pieces(s[1..], sep);
      FirstPieceFollowedBySeparator(s[1..], sep);
      if |t| == 1 && t[0] == s[1..] {
        assert s == [s[0]] + s[1..];
      } else {
        assert OccursAt(s[1..], sep, |t[0]|);
        assert s[|t[0]| + 1..|t[0]| + 1 + |sep|] == s[1..][|t[0]|..|t[0]| + |sep|];
      }
    }
  }
}
