/**
 * Bookkeeping shared by the platform managers: the name -> root map that
 * registration fills under lower-cased names, and the roots for which a guarded
 * platform call is made while walking a command's root entries.
 */
module Registration {
  import opened Text

  /** The lower-cased names of a command's root entries. */
  function Names<T>(entries: seq<(string, T)>): set<string> {
    set i | 0 <= i < |entries| :: Lower(entries[i].0)
  }

  /** The roots of the entries, in order. */
  function Roots<T>(entries: seq<(string, T)>): (r: seq<T>)
    ensures |r| == |entries| && forall i :: 0 <= i < |entries| ==> r[i] == entries[i].1
  {
    seq(|entries|, i requires 0 <= i < |entries| => entries[i].1)
  }

  /** No later entry has the same lower-cased name as entry `i`. */
  predicate LastWithName<T>(entries: seq<(string, T)>, i: int)
    requires 0 <= i < |entries|
  {
    forall j :: i < j < |entries| ==> Lower(entries[j].0) != Lower(entries[i].0)
  }

  /**
   * `map.put(name.toLowerCase(), root)` for every entry in order.
   */
  function PutAll<T>(m: map<string, T>, entries: seq<(string, T)>): map<string, T> {
    if |entries| == 0 then m
    else PutAll(m, entries[..|entries| - 1])[Lower(entries[|entries| - 1].0) := entries[|entries| - 1].1]
  }

  /** After at least one put the map is not empty. */
  lemma PutAllNonEmpty<T>(m: map<string, T>, entries: seq<(string, T)>)
    requires |entries| > 0
    ensures Lower(entries[|entries| - 1].0) in PutAll(m, entries)
  {
  }

  /** `map.remove(name.toLowerCase())` for every entry in order. */
  function RemoveAll<T>(m: map<string, T>, entries: seq<(string, T)>): map<string, T> {
    if |entries| == 0 then m else RemoveAll(m, entries[..|entries| - 1]) - {Lower(entries[|entries| - 1].0)}
  }

  /** The removals drop exactly the entries' names and keep every other key and its value. */
  lemma {:induction false} RemoveAllSpec<T>(m: map<string, T>, entries: seq<(string, T)>)
    ensures RemoveAll(m, entries) == m - Names(entries)
  {
    if |entries| > 0 {
      var n := |entries| - 1;
      RemoveAllSpec(m, entries[..n]);
      assert entries == entries[..n] + [entries[n]];
      NamesSnoc(entries[..n], entries[n]);
    }
  }

  lemma NamesSnoc<T>(entries: seq<(string, T)>, e: (string, T))
    ensures Names(entries + [e]) == Names(entries) + {Lower(e.0)}
  {
    var es := entries + [e];
    assert forall i :: 0 <= i < |entries| ==> es[i] == entries[i];
    assert es[|entries|] == e;
  }

  /**
   * After the puts the map holds the old keys and every entry's name; an
   * entry's name maps to its root unless a later entry has the same name (the
   * later put wins); keys no entry names keep their old value.
   */
  lemma {:induction false} PutAllSpec<T>(m: map<string, T>, entries: seq<(string, T)>)
    ensures PutAll(m, entries).Keys == m.Keys + Names(entries)
    ensures forall i :: 0 <= i < |entries| && LastWithName(entries, i) ==>
              PutAll(m, entries)[Lower(entries[i].0)] == entries[i].1
    ensures forall k :: k in m && k !in Names(entries) ==> PutAll(m, entries)[k] == m[k]
  {
    if |entries| > 0 {
      var n := |entries| - 1;
      var pre := entries[..n];
      assert entries == pre + [entries[n]];
      PutAllSpec(m, pre);
      NamesSnoc(pre, entries[n]);
      forall i | 0 <= i < n && LastWithName(entries, i)
        ensures LastWithName(pre, i) && Lower(entries[i].0) != Lower(entries[n].0)
      {
        assert forall j :: i < j < n ==> pre[j] == entries[j];
      }
    }
  }

  /**
   * The entries at which a guarded call is made when the guard holds exactly
   * for roots in `keep` that have not been met before: entries whose root is
   * in `keep` and first met there, in order.
   */
  function FirstEntries<T(==)>(entries: seq<(string, T)>, keep: set<T>): seq<(string, T)> {
    if |entries| == 0 then []
    else
      var n := |entries| - 1;
      var prev := FirstEntries(entries[..n], keep);
      if entries[n].1 in keep && entries[n].1 !in Roots(entries[..n]) then prev + [entries[n]] else prev
  }

  /**
   * The picked entries are entries whose root is kept; no root is picked
   * twice; and every kept root of the entries is picked.
   */
  lemma {:induction false} FirstEntriesSpec<T>(entries: seq<(string, T)>, keep: set<T>)
    ensures forall i :: 0 <= i < |FirstEntries(entries, keep)| ==>
              FirstEntries(entries, keep)[i] in entries && FirstEntries(entries, keep)[i].1 in keep
    ensures NoDuplicates(Roots(FirstEntries(entries, keep)))
    ensures forall i :: 0 <= i < |entries| && entries[i].1 in keep ==> entries[i].1 in Roots(FirstEntries(entries, keep))
  {
    if |entries| > 0 {
      var n := |entries| - 1;
      var pre := entries[..n];
      var prev := FirstEntries(pre, keep);
      FirstEntriesSpec(pre, keep);
      assert entries == pre + [entries[n]];
      assert Roots(entries) == Roots(pre) + [entries[n].1];
      assert Roots(prev + [entries[n]]) == Roots(prev) + [entries[n].1];
      if entries[n].1 in keep && entries[n].1 !in Roots(pre) {
        forall j | 0 <= j < |prev| ensures prev[j].1 != entries[n].1 {
          var k :| 0 <= k < |pre| && pre[k] == prev[j];
          assert Roots(pre)[k] == prev[j].1;
        }
      }
      forall i | 0 <= i < |entries| && entries[i].1 in keep ensures entries[i].1 in Roots(FirstEntries(entries, keep)) {
        if i < n {
          assert pre[i] == entries[i];
        }
      }
    }
  }

  /** One more entry: the guarded call is made there iff its root is kept and new. */
  lemma FirstEntriesSnoc<T>(entries: seq<(string, T)>, e: (string, T), keep: set<T>)
    ensures FirstEntries(entries + [e], keep) ==
            FirstEntries(entries, keep) + (if e.1 in keep && e.1 !in Roots(entries) then [e] else [])
  {
    assert (entries + [e])[..|entries|] == entries;
  }
}
