/**
  Four-level page tables as trees that own their frames, and the range operations on them.
  Addresses are page numbers; a node of depth `d` covers `Size(d)` pages, and a node of
  depth 0 is a page-table entry: a page or nothing.
 */
module PageTree {

  const FANOUT: nat := 512
  const LEVELS: nat := 4

  datatype Flags = Flags(user: bool, write: bool, exec: bool, uncached: bool)

  datatype Tree =
    | Absent
    | Page(frame: nat, flags: Flags)
    | Table(frame: nat, kids: seq<Tree>)

  /** How many pages an entry of depth `d` covers. */
  function Size(d: nat): (s: nat)
    ensures s >= 1
  {
    if d == 0 then 1 else FANOUT * Size(d - 1)
  }

  function Min(a: int, b: int): int { if a < b then a else b }

  function Max(a: int, b: int): int { if a < b then b else a }

  predicate Shaped(t: Tree, d: nat) {
    match t
    case Absent => true
    case Page(_, _) => d == 0
    case Table(_, kids) => d > 0 && |kids| == FANOUT && forall i | 0 <= i < |kids| :: Shaped(kids[i], d - 1)
  }

  // ---------------------------------------------------------------- the flat map

  /** Shifting left and right by `d` levels of nine bits. */
  function Shl(d: nat, i: nat): nat { if d == 0 then i else Shl(d - 1, FANOUT * i) }

  function Shr(d: nat, p: nat): nat { if d == 0 then p else Shr(d - 1, p) / FANOUT }

  /** The place of page `p` in its entry of depth `d`. */
  function Rest(d: nat, p: nat): int { p - Shl(d, Shr(d, p)) }

  /** The page that page number `p` of the node leads to, or `Absent`. */
  function Lookup(t: Tree, d: nat, p: nat): Tree
    decreases d, 0
  {
    if d == 0 then (if t.Page? then t else Absent)
    else if t.Table? then LookupKids(t.kids, d - 1, p)
    else Absent
  }

  function LookupKids(kids: seq<Tree>, d: nat, p: nat): Tree
    decreases d, 1
  {
    if Shr(d, p) < |kids| && Rest(d, p) >= 0 then Lookup(kids[Shr(d, p)], d, Rest(d, p)) else Absent
  }

  // ---------------------------------------------------------------- entries of a range

  /** The first entry a range that starts at `lo` touches, and the entry after the last for one that ends at `hi`. */
  function First(d: nat, lo: nat): nat { Shr(d, lo) }

  function Last(d: nat, hi: nat): nat { Shr(d, hi + Size(d) - 1) }

  /** The part of the range that lies in entry `i`, counted from the start of the entry. */
  function Lo(d: nat, i: nat, lo: nat): nat { Max(Shl(d, i), lo) - Shl(d, i) }

  function Hi(d: nat, i: nat, hi: nat): nat { Max(0, Min(Shl(d, i + 1), hi) - Shl(d, i)) }

  lemma {:induction false} ShlAdd(d: nat, a: nat, b: nat)
    ensures Shl(d, a + b) == Shl(d, a) + Shl(d, b)
  {
    if d > 0 { ShlAdd(d - 1, FANOUT * a, FANOUT * b); }
  }

  lemma {:induction false} ShlScale(d: nat, c: nat, a: nat)
    ensures Shl(d, c * a) == c * Shl(d, a)
    decreases c
  {
    if c == 0 { ShlAdd(d, 0, 0); } else { ShlAdd(d, (c - 1) * a, a); ShlScale(d, c - 1, a); }
  }

  lemma {:induction false} ShlSize(d: nat, i: nat)
    ensures Shl(d, i + 1) == Shl(d, i) + Size(d)
    ensures i <= Shl(d, i)
  {
    if d > 0 {
      ShlAdd(d, i, 1);
      ShlOne(d);
      ShlSize(d - 1, FANOUT * i);
    }
  }

  lemma {:induction false} ShlOne(d: nat)
    ensures Shl(d, 1) == Size(d)
  {
    if d > 0 { ShlScale(d - 1, FANOUT, 1); ShlOne(d - 1); }
  }

  lemma ShlMono(d: nat, a: nat, b: nat)
    requires a <= b
    ensures Shl(d, a) <= Shl(d, b)
  {
    ShlAdd(d, a, b - a);
  }

  /** The right shift names the entry that holds the page. */
  lemma {:induction false} ShrExactly(d: nat, p: nat, i: nat)
    ensures Shl(d, i) <= p < Shl(d, i + 1) <==> Shr(d, p) == i
  {
    if d > 0 {
      var q := Shr(d - 1, p);
      ShrExactly(d - 1, p, q);
      ShlMono(d - 1, if FANOUT * i <= q then FANOUT * i else q, if FANOUT * i <= q then q else FANOUT * i);
      ShlMono(d - 1, if FANOUT * (i + 1) <= q then FANOUT * (i + 1) else q + 1,
                     if FANOUT * (i + 1) <= q then q else FANOUT * (i + 1));
      if q < FANOUT * i { ShlMono(d - 1, q + 1, FANOUT * i); }
    }
  }

  lemma RestFits(d: nat, p: nat)
    ensures 0 <= Rest(d, p) < Size(d) && p == Shl(d, Shr(d, p)) + Rest(d, p)
  {
    ShrExactly(d, p, Shr(d, p));
    ShlSize(d, Shr(d, p));
  }

  /** Entry `i` is touched by the range exactly if it has a page of the range. */
  lemma TouchedExactly(d: nat, lo: nat, hi: nat, i: nat)
    requires lo < hi
    ensures First(d, lo) <= i < Last(d, hi) <==> Max(Shl(d, i), lo) < Min(Shl(d, i + 1), hi)
    ensures First(d, lo) <= i < Last(d, hi) ==> Lo(d, i, lo) < Hi(d, i, hi) <= Size(d)
  {
    var f, l := First(d, lo), Last(d, hi);
    ShlSize(d, i);
    ShrExactly(d, lo, f);
    ShrExactly(d, hi + Size(d) - 1, l);
    ShlSize(d, l);
    if f <= i { ShlMono(d, f, i); ShlMono(d, f + 1, i + 1); } else { ShlMono(d, i + 1, f); }
    if i < l { ShlMono(d, i + 1, l); } else { ShlMono(d, l, i); }
  }

  /** A page is in the range exactly if its place in its entry is in the entry's part of the range. */
  lemma InPart(d: nat, lo: nat, hi: nat, p: nat)
    ensures lo <= p < hi <==> Lo(d, Shr(d, p), lo) <= Rest(d, p) < Hi(d, Shr(d, p), hi)
  {
    RestFits(d, p);
    ShlSize(d, Shr(d, p));
  }

  lemma InRangeTouched(d: nat, lo: nat, hi: nat, p: nat)
    requires lo <= p < hi
    ensures First(d, lo) <= Shr(d, p) < Last(d, hi)
  {
    TouchedExactly(d, lo, hi, Shr(d, p));
    ShrExactly(d, p, Shr(d, p));
  }

  /** A node's range stays within its entries. */
  lemma LastFits(d: nat, hi: nat)
    requires hi <= Size(d + 1)
    ensures Last(d, hi) <= FANOUT
  {
    ShlOne(d + 1);
    ShlScale(d, FANOUT, 1);
    ShlOne(d);
    ShlSize(d, FANOUT);
    var x := hi + Size(d) - 1;
    ShrExactly(d, x, Shr(d, x));
    if Shr(d, x) > FANOUT { ShlMono(d, FANOUT + 1, Shr(d, x)); }
  }
}
