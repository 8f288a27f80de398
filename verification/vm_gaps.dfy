/** Choosing a place for a new area by a hint, and joining areas that touch. */
module VmGaps {
  import opened Wrappers
  import opened PageTree
  import opened VmAreas

  /** The hint used when the caller's is no user page: 0xaaabbb MiB. */
  const DEFAULT_HINT: nat := 0xaaabbb * 256

  function Hint(hint: nat): nat { if hint < ADDR_MIN || hint >= AddrMax() then DEFAULT_HINT else hint }

  /** A hint that is a user page is taken; for any other the search starts at 0xaaabbb MiB. */
  lemma HintExact(hint: nat)
    ensures AddrMax() * 4096 == 0x8000_0000_0000
    ensures if 1 <= hint < AddrMax() then Hint(hint) == hint else Hint(hint) * 4096 == 0xaaabbb * 0x10_0000
  {
    LowHalf();
  }

  lemma LowHalf()
    ensures AddrMax() == 0x8_0000_0000
  {
    assert Shl(3, 256) == Shl(2, 256 * 512) == Shl(1, 256 * 512 * 512) == Shl(0, 256 * 512 * 512 * 512);
  }

  predicate InBounds(s: seq<Area>) { forall i {:trigger s[i]} | 0 <= i < |s| :: ADDR_MIN <= s[i].begin && s[i].end <= AddrMax() }

  /** Gap `k` lies before area `k`; the last one ends at the limit. */
  function GapBegin(s: seq<Area>, k: nat): nat
    requires k <= |s|
  {
    if k == 0 then ADDR_MIN else s[k - 1].end
  }

  function GapEnd(s: seq<Area>, k: nat): nat
    requires k <= |s|
  {
    if k < |s| then s[k].begin else AddrMax()
  }

  /** The gap chosen from gap `k` on, `best` being the one chosen before it. */
  function Choose(s: seq<Area>, k: nat, hint: nat, len: nat, best: Option<nat>): Option<nat>
    requires k <= |s| + 1 && (best.Some? ==> best.value <= |s|)
    decreases |s| + 1 - k
  {
    if k > |s| then best
    else if GapEnd(s, k) - GapBegin(s, k) < len then Choose(s, k + 1, hint, len, best)
    else if GapBegin(s, k) < hint then Choose(s, k + 1, hint, len, Some(k))
    else if best.None? || GapBegin(s, k) - hint < hint - GapBegin(s, best.value) then Some(k)
    else best
  }

  function Clamp(v: nat, lo: nat, hi: nat): nat { if v < lo then lo else if hi < v then hi else v }

  /** Where the new area starts: the hint, moved into the gap. */
  function Place(s: seq<Area>, k: nat, hint: nat): nat
    requires k <= |s|
  {
    Clamp(hint, GapBegin(s, k), GapEnd(s, k))
  }

  /** A gap is chosen exactly if some gap is long enough, and the one chosen is. */
  lemma {:induction false} ChooseFits(s: seq<Area>, k: nat, hint: nat, len: nat, best: Option<nat>)
    requires k <= |s| + 1 && (best.Some? ==> best.value < k && GapEnd(s, best.value) - GapBegin(s, best.value) >= len)
    ensures var c := Choose(s, k, hint, len, best);
            && (c.Some? ==> c.value <= |s| && GapEnd(s, c.value) - GapBegin(s, c.value) >= len)
            && (c.Some? <==> best.Some? || exists g: nat {:trigger GapEnd(s, g)} :: k <= g <= |s| && GapEnd(s, g) - GapBegin(s, g) >= len)
    decreases |s| + 1 - k
  {
    if k <= |s| {
      var fits := GapEnd(s, k) - GapBegin(s, k) >= len;
      if !fits {
        ChooseFits(s, k + 1, hint, len, best);
      } else if GapBegin(s, k) < hint {
        ChooseFits(s, k + 1, hint, len, Some(k));
      }
    }
  }

  /** The list with the new area linked in, before joining. */
  function Placed(s: seq<Area>, k: nat, hint: nat, len: nat, flags: Flags): seq<Area>
    requires k <= |s|
  {
    var a := Place(s, k, hint);
    Inserted(s, k, Area(a, a + len, flags))
  }

  /** The list stays in order exactly if the hint leaves room for the length before the end of the chosen gap. */
  lemma PlacedSorted(s: seq<Area>, k: nat, hint: nat, len: nat, flags: Flags)
    requires Sorted(s) && InBounds(s) && k <= |s| && len > 0 && hint + len <= AddrMax()
    requires GapEnd(s, k) - GapBegin(s, k) >= len
    ensures Sorted(Placed(s, k, hint, len, flags)) <==> hint + len <= GapEnd(s, k)
    ensures hint + len <= GapEnd(s, k) ==> InBounds(Placed(s, k, hint, len, flags))
  {
    var x := Area(Place(s, k, hint), Place(s, k, hint) + len, flags);
    PlaceIn(s, k, hint, len);
    InsertedSorted(s, k, x);
    if x.end <= GapEnd(s, k) { InsertedBounds(s, k, x); }
  }

  lemma PlaceIn(s: seq<Area>, k: nat, hint: nat, len: nat)
    requires k <= |s| && GapEnd(s, k) - GapBegin(s, k) >= len > 0
    ensures var a := Place(s, k, hint);
            GapBegin(s, k) <= a <= GapEnd(s, k) && (a + len <= GapEnd(s, k) <==> hint + len <= GapEnd(s, k))
  {
  }

  lemma InsertedBounds(s: seq<Area>, k: nat, x: Area)
    requires Sorted(s) && InBounds(s) && k <= |s| && GapBegin(s, k) <= x.begin < x.end <= GapEnd(s, k)
    ensures InBounds(Inserted(s, k, x))
  {
  }

  /** A hint just before an area: the new area overlaps it. */
  lemma PlacedOverlaps(f: Flags, g: Flags)
    ensures var s := [Area(100, 200, f)];
            Choose(s, 0, 95, 10, None) == Some(0) && In(Placed(s, 0, 95, 10, g), 102, f) && In(Placed(s, 0, 95, 10, g), 102, g)
  {
    var s := [Area(100, 200, f)];
    assert GapBegin(s, 1) == 200;
    assert Choose(s, 2, 95, 10, Some(0)) == Some(0);
    assert Choose(s, 1, 95, 10, Some(0)) == Some(0);
    InsertedIn(s, 0, Area(95, 105, g));
    assert Within(s[0], 102);
  }

  // ---------------------------------------------------------------- which gap

  /** Gap `k` is long enough. */
  predicate Fits(s: seq<Area>, k: nat, len: nat)
    requires k <= |s|
  {
    GapEnd(s, k) - GapBegin(s, k) >= len
  }

  /** The last gap long enough that begins before the hint, among those before gap `k`. */
  ghost predicate LastBelow(s: seq<Area>, k: nat, hint: nat, len: nat, best: Option<nat>)
    requires k <= |s| + 1
  {
    && (best.Some? ==> best.value < k && Fits(s, best.value, len) && GapBegin(s, best.value) < hint)
    && forall g: nat {:trigger Fits(s, g, len)} | g < k && Fits(s, g, len) :: best.Some? && g <= best.value
  }

  /** The gap chosen, if not the last fitting one below the hint, is the first fitting one at or above it, and begins nearer to it. */
  ghost predicate Nearest(s: seq<Area>, hint: nat, len: nat, c: Option<nat>) {
    match c
    case None => forall g: nat {:trigger Fits(s, g, len)} | g <= |s| :: !Fits(s, g, len)
    case Some(k) =>
      && k <= |s| && Fits(s, k, len)
      && (GapBegin(s, k) < hint ==> forall g: nat {:trigger Fits(s, g, len)} | k < g <= |s| && Fits(s, g, len) ::
            GapBegin(s, g) >= hint && GapBegin(s, g) - hint >= hint - GapBegin(s, k))
      && (GapBegin(s, k) >= hint ==> forall g: nat {:trigger Fits(s, g, len)} | g < k && Fits(s, g, len) ::
            GapBegin(s, g) < hint && GapBegin(s, k) - hint < hint - GapBegin(s, g))
  }

  lemma GapsRise(s: seq<Area>, g: nat, h: nat)
    requires Sorted(s) && InBounds(s) && g <= h <= |s|
    ensures GapBegin(s, g) <= GapBegin(s, h)
  {
    if 0 < g < h {
      assert s[g - 1].end <= s[h - 1].begin < s[h - 1].end;
    } else if g < h {
      assert ADDR_MIN <= s[h - 1].begin < s[h - 1].end;
    }
  }

  /** The gap chosen is the nearest one to the hint that is long enough: by its begin, the last below or the first above, the lower of two as near. */
  lemma {:induction false} ChooseNearest(s: seq<Area>, k: nat, hint: nat, len: nat, best: Option<nat>)
    requires Sorted(s) && InBounds(s) && k <= |s| + 1 && LastBelow(s, k, hint, len, best)
    ensures Nearest(s, hint, len, Choose(s, k, hint, len, best))
    decreases |s| + 1 - k
  {
    if k <= |s| {
      if !Fits(s, k, len) {
        ChooseNearest(s, k + 1, hint, len, best);
      } else if GapBegin(s, k) < hint {
        ChooseNearest(s, k + 1, hint, len, Some(k));
      } else {
        FirstAbove(s, k, hint, len, best);
      }
    }
  }

  lemma FirstAbove(s: seq<Area>, k: nat, hint: nat, len: nat, best: Option<nat>)
    requires Sorted(s) && InBounds(s) && k <= |s| && LastBelow(s, k, hint, len, best) && Fits(s, k, len) && GapBegin(s, k) >= hint
    ensures Nearest(s, hint, len, Choose(s, k, hint, len, best))
  {
    forall g: nat | g < k && Fits(s, g, len) ensures best.Some? && GapBegin(s, g) <= GapBegin(s, best.value) < hint {
      assert g <= best.value;
      GapsRise(s, g, best.value);
    }
    forall g: nat | k <= g <= |s| ensures GapBegin(s, g) >= GapBegin(s, k) { GapsRise(s, k, g); }
    if best.Some? {
      forall g: nat | best.value < g <= |s| && Fits(s, g, len) ensures g >= k {}
    }
  }

  // ---------------------------------------------------------------- joining

  predicate Joins(s: seq<Area>, i: nat) {
    i + 1 < |s| && s[i].end == s[i + 1].begin && s[i].flags == s[i + 1].flags
  }

  function Joined(s: seq<Area>, i: nat): (r: seq<Area>)
    requires i + 1 < |s|
    ensures |r| == |s| - 1 && (forall k | 0 <= k < i :: r[k] == s[k]) && r[i] == Area(s[i].begin, s[i + 1].end, s[i].flags)
    ensures forall k | i < k < |r| :: r[k] == s[k + 1]
  {
    Removed(s, i + 1)[i := s[i].(end := s[i + 1].end)]
  }

  /** Joining area `i` with those that follow it without a gap and with the same flags. */
  function MergeAfter(s: seq<Area>, i: nat): seq<Area>
    decreases |s|
  {
    if Joins(s, i) then MergeAfter(Joined(s, i), i) else s
  }

  lemma JoinedSorted(s: seq<Area>, i: nat)
    requires Sorted(s) && Joins(s, i)
    ensures Sorted(Joined(s, i))
  {
    assert s[i].begin < s[i].end && s[i + 1].begin < s[i + 1].end;
  }

  /** No area is empty. */
  predicate Nonempty(s: seq<Area>) { forall i {:trigger s[i]} | 0 <= i < |s| :: s[i].begin < s[i].end }

  /** Joining two areas without a gap between them cannot put a list in order that was not. */
  lemma JoinedUnsorted(s: seq<Area>, i: nat)
    requires Nonempty(s) && Joins(s, i) && Sorted(Joined(s, i))
    ensures Sorted(s)
  {
    var r := Joined(s, i);
    forall a, b {:trigger s[a], s[b]} | 0 <= a < b < |s| ensures s[a].end <= s[b].begin {
      var a', b' := if a <= i then a else a - 1, if b <= i then b else b - 1;
      if a' < b' { assert r[a'].end <= r[b'].begin; }
    }
  }

  /** Joining leaves the list in order exactly if it was. */
  lemma {:induction false} MergeSortedExactly(s: seq<Area>, i: nat)
    requires Nonempty(s)
    ensures Sorted(MergeAfter(s, i)) <==> Sorted(s)
    decreases |s|
  {
    if Joins(s, i) {
      MergeSortedExactly(Joined(s, i), i);
      if Sorted(s) { JoinedSorted(s, i); }
      if Sorted(Joined(s, i)) { JoinedUnsorted(s, i); }
    }
  }

  lemma JoinedHas(s: seq<Area>, i: nat, p: nat, fl: Flags)
    requires Joins(s, i) && In(s, p, fl)
    requires s[i].begin < s[i].end && s[i + 1].begin < s[i + 1].end
    ensures In(Joined(s, i), p, fl)
  {
    var k :| 0 <= k < |s| && Within(s[k], p) && s[k].flags == fl;
    var j := if k <= i then k else k - 1;
    assert Within(Joined(s, i)[j], p);
  }

  lemma JoinedFrom(s: seq<Area>, i: nat, p: nat, fl: Flags)
    requires Joins(s, i) && In(Joined(s, i), p, fl)
    ensures In(s, p, fl)
  {
    var s' := Joined(s, i);
    var k :| 0 <= k < |s'| && Within(s'[k], p) && s'[k].flags == fl;
    var j := if k < i then k else if k > i then k + 1 else if p < s[i].end then i else i + 1;
    assert Within(s[j], p);
  }

  /** Joining keeps the order, and every page with its flags. */
  lemma {:induction false} MergeExact(s: seq<Area>, i: nat)
    requires Sorted(s)
    ensures Sorted(MergeAfter(s, i)) && forall p: nat, fl :: In(MergeAfter(s, i), p, fl) <==> In(s, p, fl)
    decreases |s|
  {
    if Joins(s, i) {
      JoinedSorted(s, i);
      forall p: nat, fl ensures In(Joined(s, i), p, fl) <==> In(s, p, fl) {
        if In(s, p, fl) { JoinedHas(s, i, p, fl); }
        if In(Joined(s, i), p, fl) { JoinedFrom(s, i, p, fl); }
      }
      MergeExact(Joined(s, i), i);
    }
  }
}
