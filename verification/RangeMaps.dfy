/** The interval map the reader builds over a chunk: sorted, disjoint, non-empty ranges.
    Inserting cuts whatever was there (the rangemap crate as components/types/src/slice.rs
    and components/vfs/src/reader.rs use it). */
module RangeMaps {
  import opened Common

  datatype Entry<+V> = Entry(lo: nat, hi: nat, value: V)

  ghost predicate Sorted<V>(m: seq<Entry<V>>) {
    && (forall i :: 0 <= i < |m| ==> m[i].lo < m[i].hi)
    && (forall i, j :: 0 <= i < j < |m| ==> m[i].hi <= m[j].lo)
  }

  /** The parts of the map below `lo`. */
  function Before<V>(m: seq<Entry<V>>, lo: nat): seq<Entry<V>>
  {
    if m == [] then []
    else
      var rest := Before(m[..|m| - 1], lo);
      var e := m[|m| - 1];
      if e.lo < lo then rest + [Entry(e.lo, Min(e.hi, lo), e.value)] else rest
  }

  /** The parts of the map at and above `hi`. */
  function After<V>(m: seq<Entry<V>>, hi: nat): seq<Entry<V>>
  {
    if m == [] then []
    else
      var rest := After(m[1..], hi);
      var e := m[0];
      if hi < e.hi then [Entry(Max(e.lo, hi), e.hi, e.value)] + rest else rest
  }

  function Insert<V>(m: seq<Entry<V>>, lo: nat, hi: nat, v: V): seq<Entry<V>> {
    Before(m, lo) + [Entry(lo, hi, v)] + After(m, hi)
  }

  /** The value at a position, found from the front. */
  function Lookup<V>(m: seq<Entry<V>>, pos: nat): Option<V> {
    if m == [] then None
    else if m[0].lo <= pos < m[0].hi then Some(m[0].value)
    else Lookup(m[1..], pos)
  }

  lemma {:induction false} LookupAppend<V>(a: seq<Entry<V>>, b: seq<Entry<V>>, pos: nat)
    ensures Lookup(a + b, pos) == if Lookup(a, pos).Some? then Lookup(a, pos) else Lookup(b, pos)
  {
    if a == [] {
      assert a + b == b;
    } else {
      assert (a + b)[1..] == a[1..] + b;
      LookupAppend(a[1..], b, pos);
    }
  }

  lemma {:induction false} BeforeSorted<V>(m: seq<Entry<V>>, lo: nat)
    requires Sorted(m)
    ensures Sorted(Before(m, lo))
    ensures forall i :: 0 <= i < |Before(m, lo)| ==> Before(m, lo)[i].hi <= lo
    ensures forall i :: 0 <= i < |Before(m, lo)| ==> Before(m, lo)[i].hi <= m[|m| - 1].hi
  {
    if |m| > 1 {
      BeforeSorted(m[..|m| - 1], lo);
      assert m[|m| - 2].hi <= m[|m| - 1].lo;
    }
  }

  lemma {:induction false} BeforeLookup<V>(m: seq<Entry<V>>, lo: nat, pos: nat)
    ensures Lookup(Before(m, lo), pos) == if pos < lo then Lookup(m, pos) else None
  {
    if m != [] {
      var n := |m| - 1;
      BeforeLookup(m[..n], lo, pos);
      assert m == m[..n] + [m[n]];
      LookupAppend(m[..n], [m[n]], pos);
      LookupAppend(Before(m[..n], lo), [Entry(m[n].lo, Min(m[n].hi, lo), m[n].value)], pos);
    }
  }

  lemma {:induction false} AfterSorted<V>(m: seq<Entry<V>>, hi: nat)
    requires Sorted(m)
    ensures Sorted(After(m, hi))
    ensures forall i :: 0 <= i < |After(m, hi)| ==> hi <= After(m, hi)[i].lo
    ensures forall i :: 0 <= i < |After(m, hi)| ==> m[0].lo <= After(m, hi)[i].lo
  {
    if |m| > 1 {
      AfterSorted(m[1..], hi);
      assert m[0].hi <= m[1].lo;
    }
  }

  lemma {:induction false} AfterLookup<V>(m: seq<Entry<V>>, hi: nat, pos: nat)
    ensures Lookup(After(m, hi), pos) == if hi <= pos then Lookup(m, pos) else None
  {
    if m != [] {
      AfterLookup(m[1..], hi, pos);
      LookupAppend([Entry(Max(m[0].lo, hi), m[0].hi, m[0].value)], After(m[1..], hi), pos);
    }
  }

  /** Insertion overwrites exactly its own range. */
  lemma InsertOverwrites<V>(m: seq<Entry<V>>, lo: nat, hi: nat, v: V)
    requires Sorted(m) && lo < hi
    ensures Sorted(Insert(m, lo, hi, v))
    ensures forall pos: nat :: Lookup(Insert(m, lo, hi, v), pos) == if lo <= pos < hi then Some(v) else Lookup(m, pos)
  {
    BeforeSorted(m, lo);
    AfterSorted(m, hi);
    forall pos: nat
      ensures Lookup(Insert(m, lo, hi, v), pos) == if lo <= pos < hi then Some(v) else Lookup(m, pos)
    {
      BeforeLookup(m, lo, pos);
      AfterLookup(m, hi, pos);
      LookupAppend(Before(m, lo) + [Entry(lo, hi, v)], After(m, hi), pos);
      LookupAppend(Before(m, lo), [Entry(lo, hi, v)], pos);
    }
  }

  // ---- reading a map back -----------------------------------------------------

  lemma {:induction false} LookupEntry<V>(m: seq<Entry<V>>, i: nat, pos: nat)
    requires Sorted(m) && i < |m| && m[i].lo <= pos < m[i].hi
    ensures Lookup(m, pos) == Some(m[i].value)
  {
    if i > 0 {
      assert m[0].hi <= m[i].lo;
      LookupEntry(m[1..], i - 1, pos);
    }
  }

  lemma {:induction false} LookupWitness<V>(m: seq<Entry<V>>, pos: nat) returns (i: nat)
    requires Lookup(m, pos).Some?
    ensures i < |m| && m[i].lo <= pos < m[i].hi
  {
    if m[0].lo <= pos < m[0].hi {
      i := 0;
    } else {
      i := LookupWitness(m[1..], pos);
      i := i + 1;
    }
  }

  /** A map defined on exactly [lo, hi) is a chain of touching ranges from `lo` to `hi`. */
  lemma Chain<V>(m: seq<Entry<V>>, lo: nat, hi: nat)
    requires Sorted(m) && lo < hi
    requires forall pos: nat :: Lookup(m, pos).Some? <==> lo <= pos < hi
    ensures |m| > 0 && m[0].lo == lo && m[|m| - 1].hi == hi
    ensures forall i :: 0 <= i < |m| - 1 ==> m[i].hi == m[i + 1].lo
  {
    var first := LookupWitness(m, lo);
    LookupEntry(m, 0, m[0].lo);
    assert first == 0;
    var last := LookupWitness(m, hi - 1);
    LookupEntry(m, |m| - 1, m[|m| - 1].hi - 1);
    assert last == |m| - 1;
    forall i | 0 <= i < |m| - 1
      ensures m[i].hi == m[i + 1].lo
    {
      if m[i].hi < m[i + 1].lo {
        var j := LookupWitness(m, m[i].hi);
        assert false;
      }
    }
  }

  /** The maximal sub-ranges of [lo, hi) the map says nothing about. */
  function Gaps<V>(m: seq<Entry<V>>, lo: nat, hi: nat): seq<(nat, nat)> {
    if lo >= hi then []
    else if m == [] then [(lo, hi)]
    else if m[0].hi <= lo then Gaps(m[1..], lo, hi)
    else if hi <= m[0].lo then [(lo, hi)]
    else (if lo < m[0].lo then [(lo, m[0].lo)] else []) + Gaps(m[1..], m[0].hi, hi)
  }

  ghost predicate InSome(gaps: seq<(nat, nat)>, pos: nat) {
    exists i :: 0 <= i < |gaps| && gaps[i].0 <= pos < gaps[i].1
  }

  lemma {:induction false} GapsAreHoles<V>(m: seq<Entry<V>>, lo: nat, hi: nat)
    requires Sorted(m)
    ensures forall i :: 0 <= i < |Gaps(m, lo, hi)| ==> lo <= Gaps(m, lo, hi)[i].0 < Gaps(m, lo, hi)[i].1 <= hi
    ensures forall pos: nat :: InSome(Gaps(m, lo, hi), pos) <==> lo <= pos < hi && Lookup(m, pos).None?
  {
    if lo < hi && m != [] {
      var e := m[0];
      GapsAreHoles(m[1..], lo, hi);
      if e.hi > lo && e.lo < hi {
        GapsAreHoles(m[1..], e.hi, hi);
        GapsSplit(m, lo, hi);
      }
      forall pos: nat
        ensures InSome(Gaps(m, lo, hi), pos) <==> lo <= pos < hi && Lookup(m, pos).None?
      {
        if Lookup(m[1..], pos).Some? {
          var i := LookupWitness(m[1..], pos);
          assert m[0].hi <= m[i + 1].lo;
        }
        if m == [] || (e.hi > lo && hi <= e.lo) { assert Gaps(m, lo, hi)[0] == (lo, hi); }
      }
    } else if lo < hi {
      assert Gaps(m, lo, hi)[0] == (lo, hi);
    }
  }

  lemma GapsSplit<V>(m: seq<Entry<V>>, lo: nat, hi: nat)
    requires lo < hi && m != [] && m[0].hi > lo && m[0].lo < hi
    ensures forall pos: nat :: InSome(Gaps(m, lo, hi), pos) <==> lo <= pos < m[0].lo || InSome(Gaps(m[1..], m[0].hi, hi), pos)
  {
    var rest := Gaps(m[1..], m[0].hi, hi);
    var all := Gaps(m, lo, hi);
    var k := if lo < m[0].lo then 1 else 0;
    assert |all| == |rest| + k && forall i :: 0 <= i < |rest| ==> all[i + k] == rest[i];
    forall pos: nat
      ensures InSome(all, pos) <==> lo <= pos < m[0].lo || InSome(rest, pos)
    {
      if InSome(rest, pos) {
        var i :| 0 <= i < |rest| && rest[i].0 <= pos < rest[i].1;
        assert all[i + k].0 <= pos < all[i + k].1;
      }
      if InSome(all, pos) {
        var i :| 0 <= i < |all| && all[i].0 <= pos < all[i].1;
        if i >= k { assert rest[i - k] == all[i]; }
      }
      if lo <= pos < m[0].lo { assert all[0].0 <= pos < all[0].1; }
    }
  }
}
