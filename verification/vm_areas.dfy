/**
  The list of areas of an address space, by page number: clearing a range, inserting, overwriting
  and choosing a gap, as the list-walking code does them.
 */
module VmAreas {
  import opened Wrappers
  import opened PageTree
  import opened PageSpaces

  /** Pages an area may use. */
  const ADDR_MIN: nat := 1

  function AddrMax(): nat { LowPages() }

  datatype Area = Area(begin: nat, end: nat, flags: Flags)

  datatype Overlap = After | StartsWith | Contains | Whole | EndsWith | Before

  /** How the range meets an area. */
  function FindOverlap(x: Area, ibegin: nat, iend: nat): Overlap {
    if iend <= x.begin then After
    else if ibegin >= x.end then Before
    else if ibegin <= x.begin then (if iend >= x.end then Whole else StartsWith)
    else (if iend >= x.end then EndsWith else Contains)
  }

  ghost predicate Sorted(s: seq<Area>) {
    && (forall i {:trigger s[i]} | 0 <= i < |s| :: s[i].begin < s[i].end)
    && (forall i, j {:trigger s[i], s[j]} | 0 <= i < j < |s| :: s[i].end <= s[j].begin)
  }

  predicate Within(x: Area, p: nat) { x.begin <= p < x.end }

  /** Page `p` is in an area with flags `fl`. */
  ghost predicate In(s: seq<Area>, p: nat, fl: Flags) {
    exists i {:trigger s[i]} :: 0 <= i < |s| && Within(s[i], p) && s[i].flags == fl
  }

  /** Unlinking area `i`, and linking `x` before it. */
  function Removed(s: seq<Area>, i: nat): (r: seq<Area>)
    requires i < |s|
    ensures |r| == |s| - 1 && (forall k | 0 <= k < i :: r[k] == s[k]) && (forall k | i <= k < |r| :: r[k] == s[k + 1])
  {
    seq(|s| - 1, k requires 0 <= k < |s| - 1 => if k < i then s[k] else s[k + 1])
  }

  function Inserted(s: seq<Area>, i: nat, x: Area): (r: seq<Area>)
    requires i <= |s|
    ensures |r| == |s| + 1 && (forall k | 0 <= k < i :: r[k] == s[k]) && r[i] == x
    ensures forall k | i < k < |r| :: r[k] == s[k - 1]
  {
    seq(|s| + 1, k requires 0 <= k < |s| + 1 => if k < i then s[k] else if k == i then x else s[k - 1])
  }

  datatype Cleared = Cleared(areas: seq<Area>, slot: nat)

  /** Making room for a range, from area `i` on; `slot` is where the code says the range would go. */
  function ClearFrom(s: seq<Area>, i: nat, a: nat, e: nat): Cleared
    decreases |s| - i
  {
    if i >= |s| then Cleared(s, i)
    else
      match FindOverlap(s[i], a, e)
      case After => Cleared(s, i)
      case StartsWith => Cleared(s[i := s[i].(begin := e)], i)
      case Contains => Cleared(Split(s, i, a, e), i)
      case Whole => ClearFrom(Removed(s, i), i, a, e)
      case EndsWith => ClearFrom(s[i := s[i].(end := a)], i + 1, a, e)
      case Before => ClearFrom(s, i + 1, a, e)
  }

  // ---------------------------------------------------------------- clearing is exact

  /** The pages of `s'` are those of `s` outside the range, with the same flags. */
  ghost predicate Cut(s: seq<Area>, s': seq<Area>, a: nat, e: nat) {
    forall p: nat, fl :: In(s', p, fl) <==> In(s, p, fl) && !(a <= p < e)
  }

  lemma RemoveCuts(s: seq<Area>, i: nat, a: nat, e: nat)
    requires Sorted(s) && i < |s| && a <= s[i].begin && s[i].end <= e
    ensures var s' := Removed(s, i); Sorted(s') && forall p: nat, fl :: !(a <= p < e) ==> (In(s', p, fl) <==> In(s, p, fl))
  {
    var s' := Removed(s, i);
    forall p: nat, fl | !(a <= p < e) && In(s, p, fl) ensures In(s', p, fl) {
      var k :| 0 <= k < |s| && Within(s[k], p) && s[k].flags == fl;
      assert s'[if k < i then k else k - 1] == s[k];
    }
    forall p: nat, fl | In(s', p, fl) ensures In(s, p, fl) {
      var k :| 0 <= k < |s'| && Within(s'[k], p) && s'[k].flags == fl;
      assert s'[k] == s[if k < i then k else k + 1];
    }
  }

  lemma TrimCuts(s: seq<Area>, i: nat, x: Area, a: nat, e: nat)
    requires Sorted(s) && i < |s| && x.flags == s[i].flags && s[i].begin <= x.begin < x.end <= s[i].end
    requires forall p: nat | !(a <= p < e) :: Within(x, p) <==> Within(s[i], p)
    ensures var s' := s[i := x]; Sorted(s') && forall p: nat, fl :: !(a <= p < e) ==> (In(s', p, fl) <==> In(s, p, fl))
  {
    var s' := s[i := x];
    forall p: nat, fl | !(a <= p < e) && In(s, p, fl) ensures In(s', p, fl) {
      var k :| 0 <= k < |s| && Within(s[k], p) && s[k].flags == fl;
      assert Within(s'[k], p);
    }
    forall p: nat, fl | !(a <= p < e) && In(s', p, fl) ensures In(s, p, fl) {
      var k :| 0 <= k < |s'| && Within(s'[k], p) && s'[k].flags == fl;
      assert Within(s[k], p);
    }
  }

  /** Area `i` split around the range. */
  function Split(s: seq<Area>, i: nat, a: nat, e: nat): (r: seq<Area>)
    requires i < |s|
    ensures |r| == |s| + 1 && (forall k | 0 <= k < i :: r[k] == s[k]) && (forall k | i + 1 < k < |r| :: r[k] == s[k - 1])
    ensures r[i] == s[i].(end := a) && r[i + 1] == s[i].(begin := e)
  {
    Inserted(s[i := s[i].(end := a)], i + 1, s[i].(begin := e))
  }

  lemma SplitSorted(s: seq<Area>, i: nat, a: nat, e: nat)
    requires Sorted(s) && i < |s| && s[i].begin < a < e < s[i].end
    ensures Sorted(Split(s, i, a, e))
  {
  }

  lemma SplitCuts(s: seq<Area>, i: nat, a: nat, e: nat)
    requires Sorted(s) && i < |s| && s[i].begin < a < e < s[i].end
    ensures Cut(s, Split(s, i, a, e), a, e)
  {
    var s' := Split(s, i, a, e);
    forall p: nat, fl | !(a <= p < e) && In(s, p, fl) ensures In(s', p, fl) {
      var k :| 0 <= k < |s| && Within(s[k], p) && s[k].flags == fl;
      assert Within(s'[if k < i then k else if k > i then k + 1 else if p < a then i else i + 1], p);
    }
    forall p: nat, fl | In(s', p, fl) ensures In(s, p, fl) && !(a <= p < e) {
      var k :| 0 <= k < |s'| && Within(s'[k], p) && s'[k].flags == fl;
      assert Within(s[if k <= i then k else k - 1], p);
    }
  }

  /** Areas before `i` end before the range, and none from `i` on needs clearing: no area meets the range. */
  lemma NoneMeets(s: seq<Area>, i: nat, a: nat, e: nat)
    requires Sorted(s) && i <= |s| && (forall k | 0 <= k < i :: s[k].end <= a) && (i < |s| ==> e <= s[i].begin)
    ensures Cut(s, s, a, e)
  {
    forall p: nat, fl | In(s, p, fl) ensures !(a <= p < e) {
      var k :| 0 <= k < |s| && Within(s[k], p) && s[k].flags == fl;
      assert k < i ==> s[k].end <= a;
    }
  }

  /** The result of a clear: in order, and with the range cut out. */
  ghost predicate ClearedOf(s: seq<Area>, r: Cleared, a: nat, e: nat) {
    Sorted(r.areas) && Cut(s, r.areas, a, e) && r.slot <= |r.areas|
  }

  lemma ClearStops(s: seq<Area>, i: nat, a: nat, e: nat)
    requires Sorted(s) && i < |s| && a < e && (forall k | 0 <= k < i :: s[k].end <= a)
    requires FindOverlap(s[i], a, e) in {After, StartsWith, Contains}
    ensures ClearedOf(s, ClearFrom(s, i, a, e), a, e)
  {
    match FindOverlap(s[i], a, e)
    case After => NoneMeets(s, i, a, e);
    case StartsWith =>
      TrimCuts(s, i, s[i].(begin := e), a, e);
      NoneMeets(s[i := s[i].(begin := e)], i, a, e);
    case Contains =>
      SplitSorted(s, i, a, e);
      SplitCuts(s, i, a, e);
  }

  lemma WholeCuts(s: seq<Area>, i: nat, a: nat, e: nat, r: Cleared)
    requires Sorted(s) && i < |s| && FindOverlap(s[i], a, e) == Whole && ClearedOf(Removed(s, i), r, a, e)
    ensures ClearedOf(s, r, a, e)
  {
    RemoveCuts(s, i, a, e);
  }

  lemma EndsCuts(s: seq<Area>, i: nat, a: nat, e: nat, r: Cleared)
    requires Sorted(s) && i < |s| && FindOverlap(s[i], a, e) == EndsWith && ClearedOf(s[i := s[i].(end := a)], r, a, e)
    ensures ClearedOf(s, r, a, e)
  {
    TrimCuts(s, i, s[i].(end := a), a, e);
  }

  /** Clearing removes exactly the range, over any mix of overlaps, and keeps the list in order. */
  lemma {:induction false} ClearExact(s: seq<Area>, i: nat, a: nat, e: nat)
    requires Sorted(s) && i <= |s| && a < e && forall k | 0 <= k < i :: s[k].end <= a
    ensures ClearedOf(s, ClearFrom(s, i, a, e), a, e)
    decreases |s| - i
  {
    if i < |s| {
      match FindOverlap(s[i], a, e)
      case Whole =>
        RemoveCuts(s, i, a, e);
        ClearExact(Removed(s, i), i, a, e);
        WholeCuts(s, i, a, e, ClearFrom(Removed(s, i), i, a, e));
      case EndsWith =>
        TrimCuts(s, i, s[i].(end := a), a, e);
        ClearExact(s[i := s[i].(end := a)], i + 1, a, e);
        EndsCuts(s, i, a, e, ClearFrom(s[i := s[i].(end := a)], i + 1, a, e));
      case Before => ClearExact(s, i + 1, a, e);
      case _ => ClearStops(s, i, a, e);
    } else {
      NoneMeets(s, i, a, e);
    }
  }

  // ---------------------------------------------------------------- inserting

  /** Linking a new area adds its pages. */
  lemma InsertedIn(s: seq<Area>, k: nat, x: Area)
    requires k <= |s|
    ensures forall p: nat, fl :: In(Inserted(s, k, x), p, fl) <==> In(s, p, fl) || (Within(x, p) && x.flags == fl)
  {
    var s' := Inserted(s, k, x);
    forall p: nat, fl ensures In(s', p, fl) <==> In(s, p, fl) || (Within(x, p) && x.flags == fl) {
      if In(s', p, fl) {
        var j :| 0 <= j < |s'| && Within(s'[j], p) && s'[j].flags == fl;
        if j != k { assert Within(s[if j < k then j else j - 1], p); }
      }
      if In(s, p, fl) {
        var j :| 0 <= j < |s| && Within(s[j], p) && s[j].flags == fl;
        assert Within(s'[if j < k then j else j + 1], p);
      }
      if Within(x, p) && x.flags == fl { assert Within(s'[k], p); }
    }
  }

  /** A new area keeps the order exactly if it fits between its neighbours. */
  lemma InsertedSorted(s: seq<Area>, k: nat, x: Area)
    requires Sorted(s) && k <= |s|
    ensures Sorted(Inserted(s, k, x)) <==>
              x.begin < x.end && (k > 0 ==> s[k - 1].end <= x.begin) && (k < |s| ==> x.end <= s[k].begin)
  {
    var s' := Inserted(s, k, x);
    if Sorted(s') {
      assert s'[k] == x;
      if k > 0 { assert s'[k - 1] == s[k - 1]; }
      if k < |s| { assert s'[k + 1] == s[k]; }
    }
  }

  /** Where a range that overlaps nothing goes; `None` is the error for a range that overlaps. */
  function InsertFrom(s: seq<Area>, i: nat, a: nat, e: nat): Option<nat>
    decreases |s| - i
  {
    if i >= |s| then Some(i)
    else if a < s[i].end then (if a >= s[i].begin || e > s[i].begin then None else Some(i))
    else InsertFrom(s, i + 1, a, e)
  }

  /** Insertion succeeds exactly if the range overlaps nothing. */
  lemma {:induction false} InsertExact(s: seq<Area>, i: nat, a: nat, e: nat)
    requires Sorted(s) && i <= |s| && a < e && forall k | 0 <= k < i :: s[k].end <= a
    ensures InsertFrom(s, i, a, e).Some? <==> Cut(s, s, a, e)
    ensures InsertFrom(s, i, a, e).Some? ==>
              var k := InsertFrom(s, i, a, e).value;
              k <= |s| && (k > 0 ==> s[k - 1].end <= a) && (k < |s| ==> e <= s[k].begin)
    decreases |s| - i
  {
    if i >= |s| {
      NoneMeets(s, i, a, e);
    } else if a < s[i].end {
      if a >= s[i].begin || e > s[i].begin {
        var p := if a >= s[i].begin then a else s[i].begin;
        assert Within(s[i], p) && In(s, p, s[i].flags);
      } else {
        NoneMeets(s, i, a, e);
      }
    } else {
      InsertExact(s, i + 1, a, e);
    }
  }

  // ---------------------------------------------------------------- overwriting

  function Overwrite(s: seq<Area>, a: nat, e: nat, flags: Flags): seq<Area> {
    var r := ClearFrom(s, 0, a, e);
    if r.slot <= |r.areas| then Inserted(r.areas, r.slot, Area(a, e, flags)) else []
  }

  /** The range lies strictly inside one area. */
  ghost predicate Inside(s: seq<Area>, a: nat, e: nat) {
    exists k {:trigger s[k]} :: 0 <= k < |s| && s[k].begin < a && e < s[k].end
  }

  lemma WholeReady(s: seq<Area>, i: nat, a: nat, e: nat)
    requires Sorted(s) && i < |s| && FindOverlap(s[i], a, e) == Whole && !Inside(s, a, e) && forall k | 0 <= k < i :: s[k].end <= a
    ensures var s' := Removed(s, i); Sorted(s') && !Inside(s', a, e) && forall k | 0 <= k < i :: s'[k].end <= a
  {
    RemoveCuts(s, i, a, e);
    NotInsideRemoved(s, i, a, e);
  }

  lemma EndsReady(s: seq<Area>, i: nat, a: nat, e: nat)
    requires Sorted(s) && i < |s| && a < e && FindOverlap(s[i], a, e) == EndsWith && !Inside(s, a, e)
    requires forall k | 0 <= k < i :: s[k].end <= a
    ensures var s' := s[i := s[i].(end := a)]; Sorted(s') && !Inside(s', a, e) && forall k | 0 <= k < i + 1 :: s'[k].end <= a
  {
    TrimCuts(s, i, s[i].(end := a), a, e);
    NotInsideTrimmed(s, i, a, e);
  }

  /** The range fits at the slot, between the areas around it. */
  predicate SlotRight(r: Cleared, a: nat, e: nat) {
    && r.slot <= |r.areas| && (r.slot > 0 ==> r.areas[r.slot - 1].end <= a)
    && (r.slot < |r.areas| ==> e <= r.areas[r.slot].begin)
  }

  lemma ClearSlotStops(s: seq<Area>, i: nat, a: nat, e: nat)
    requires i < |s| && (i > 0 ==> s[i - 1].end <= a) && FindOverlap(s[i], a, e) in {After, StartsWith}
    ensures SlotRight(ClearFrom(s, i, a, e), a, e)
  {
  }

  /** The slot a clear returns is right when the range was not strictly inside an area. */
  lemma {:induction false} ClearSlot(s: seq<Area>, i: nat, a: nat, e: nat)
    requires Sorted(s) && i <= |s| && a < e && !Inside(s, a, e) && forall k | 0 <= k < i :: s[k].end <= a
    ensures SlotRight(ClearFrom(s, i, a, e), a, e)
    decreases |s| - i
  {
    if i < |s| {
      match FindOverlap(s[i], a, e)
      case Whole =>
        WholeReady(s, i, a, e);
        ClearSlot(Removed(s, i), i, a, e);
      case EndsWith =>
        EndsReady(s, i, a, e);
        ClearSlot(s[i := s[i].(end := a)], i + 1, a, e);
      case Before => ClearSlot(s, i + 1, a, e);
      case Contains => NotContains(s, i, a, e);
      case _ => ClearSlotStops(s, i, a, e);
    }
  }

  lemma NotContains(s: seq<Area>, i: nat, a: nat, e: nat)
    requires i < |s| && !Inside(s, a, e)
    ensures FindOverlap(s[i], a, e) != Contains
  {
  }

  /** It is the slot before the left half when the range was strictly inside an area. */
  lemma {:induction false} ClearSlotInside(s: seq<Area>, i: nat, a: nat, e: nat, k: nat)
    requires Sorted(s) && i <= k < |s| && a < e && s[k].begin < a && e < s[k].end
    ensures var r := ClearFrom(s, i, a, e); r.slot < |r.areas| && r.areas[r.slot] == Area(s[k].begin, a, s[k].flags)
    decreases |s| - i
  {
    if i < k {
      assert s[i].end <= s[k].begin;
      ClearSlotInside(s, i + 1, a, e, k);
    }
  }

  lemma NotInsideTrimmed(s: seq<Area>, i: nat, a: nat, e: nat)
    requires i < |s| && a < e && !Inside(s, a, e)
    ensures !Inside(s[i := s[i].(end := a)], a, e)
  {
    var s' := s[i := s[i].(end := a)];
    forall k | 0 <= k < |s'| ensures !(s'[k].begin < a && e < s'[k].end) { assert k != i ==> s'[k] == s[k]; }
  }

  lemma NotInsideRemoved(s: seq<Area>, i: nat, a: nat, e: nat)
    requires i < |s| && !Inside(s, a, e)
    ensures !Inside(Removed(s, i), a, e)
  {
    var s' := Removed(s, i);
    forall k | 0 <= k < |s'| ensures !(s'[k].begin < a && e < s'[k].end) { assert s'[k] == s[if k < i then k else k + 1]; }
  }

  /** Overwriting gives the range its flags and leaves every other page its own. */
  lemma OverwriteIn(s: seq<Area>, a: nat, e: nat, flags: Flags)
    requires Sorted(s) && a < e
    ensures forall p: nat, fl :: In(Overwrite(s, a, e, flags), p, fl) <==> if a <= p < e then fl == flags else In(s, p, fl)
  {
    ClearExact(s, 0, a, e);
    var r := ClearFrom(s, 0, a, e);
    InsertedIn(r.areas, r.slot, Area(a, e, flags));
  }

  /** But the list stays in order exactly if the range was not strictly inside an area. */
  lemma OverwriteSorted(s: seq<Area>, a: nat, e: nat, flags: Flags)
    requires Sorted(s) && a < e
    ensures Sorted(Overwrite(s, a, e, flags)) <==> !Inside(s, a, e)
  {
    ClearExact(s, 0, a, e);
    if Inside(s, a, e) {
      var k: nat :| k < |s| && s[k].begin < a && e < s[k].end;
      ClearSlotInside(s, 0, a, e, k);
    } else {
      ClearSlot(s, 0, a, e);
    }
    var r := ClearFrom(s, 0, a, e);
    InsertedSorted(r.areas, r.slot, Area(a, e, flags));
  }

  /** After overwriting inside an area, a free of the area's first page does not find it. */
  lemma FreeMisses(f: Flags, g: Flags)
    ensures var s := Overwrite([Area(10, 20, f)], 12, 14, g);
            In(ClearFrom(s, 0, 10, 11).areas, 10, f)
  {
    var s := Overwrite([Area(10, 20, f)], 12, 14, g);
    assert s[0] == Area(12, 14, g) && s[1] == Area(10, 12, f);
    assert ClearFrom(s, 0, 10, 11).areas == s;
    assert Within(s[1], 10);
  }
}
