/** The frame allocator: free pages linked through their own first words. */
module PageFree {

  /** The link in each page, by address; 0 ends the list. */
  type Links = map<nat, nat>

  function Next(links: Links, page: nat): nat { if page in links then links[page] else 0 }

  /** The links from `head` spell the pages of `list`, and end. */
  predicate Spells(links: Links, head: nat, list: seq<nat>)
    decreases |list|
  {
    if list == [] then head == 0 else head == list[0] != 0 && Spells(links, Next(links, head), list[1..])
  }

  ghost predicate Distinct(list: seq<nat>) { forall i, j | 0 <= i < j < |list| :: list[i] != list[j] }

  /** A list is spelled alike in links that agree on its pages. */
  lemma {:induction false} SpellsFrame(links: Links, links': Links, head: nat, list: seq<nat>)
    requires Spells(links, head, list) && forall p | p in list :: Next(links', p) == Next(links, p)
    ensures Spells(links', head, list)
    decreases |list|
  {
    if list != [] {
      assert list[0] in list;
      SpellsFrame(links, links', Next(links, head), list[1..]);
    }
  }

  /** What the links spell is one list only. */
  lemma {:induction false} SpellsOne(links: Links, head: nat, list: seq<nat>, list': seq<nat>)
    requires Spells(links, head, list) && Spells(links, head, list')
    ensures list == list'
    decreases |list|
  {
    if list != [] && list' != [] {
      SpellsOne(links, Next(links, head), list[1..], list'[1..]);
      assert list == [list[0]] + list[1..] && list' == [list'[0]] + list'[1..];
    }
  }

  lemma {:induction false} SpellsNoZero(links: Links, head: nat, list: seq<nat>)
    requires Spells(links, head, list)
    ensures 0 !in list
    decreases |list|
  {
    if list != [] { SpellsNoZero(links, Next(links, head), list[1..]); }
  }

  /** Linking a page to the last of a list appends it. */
  lemma {:induction false} SpellsAppend(links: Links, head: nat, list: seq<nat>, page: nat)
    requires list != [] && Distinct(list) && page != 0 && page !in list && Spells(links, head, list)
    ensures Spells(links[list[|list| - 1] := page][page := 0], head, list + [page])
    decreases |list|
  {
    var last := list[|list| - 1];
    var links' := links[last := page][page := 0];
    assert (list + [page])[1..] == list[1..] + [page];
    if |list| == 1 {
      assert list[1..] + [page] == [page];
    } else {
      assert list[0] != last;
      SpellsAppend(links, Next(links, head), list[1..], page);
    }
  }

  class Pmm {
    var head: nat
    var links: Links
    var freeCount: nat
    var tail: nat              // the page whose link the next new page is put in, 0 before there is one
    ghost var list: seq<nat>

    ghost predicate Valid()
      reads this
    {
      Spells(links, head, list) && Distinct(list) && freeCount == |list|
    }

    constructor ()
      ensures Valid() && list == [] && tail == 0
    {
      head, links, freeCount, tail, list := 0, map[], 0, 0, [];
    }

    /** Taking the first free page, or 0 exactly if there is none; no other page is written. */
    method Alloc() returns (page: nat)
      requires Valid()
      modifies this`head, this`freeCount, this`links, this`list
      ensures Valid()
      ensures old(list) == [] ==> page == 0 && list == [] && links == old(links)
      ensures old(list) != [] ==> page != 0 && page == old(list)[0] && list == old(list)[1..] && page !in list
      ensures old(list) != [] ==> links == old(links)[page := 0xdddd_dddd_dddd_dddd]
    {
      page := head;
      if page == 0 { return; }
      head := Next(links, page);
      freeCount := freeCount - 1;
      list := list[1..];
      var filled := Filler();
      SpellsFrame(links, links[page := filled], head, list);
      links := links[page := filled];
    }

    /** What the allocator leaves in a page it hands out. */
    static function Filler(): nat { 0xdddd_dddd_dddd_dddd }

    /** Freeing a page puts it first. */
    method Free(page: nat)
      requires Valid() && page != 0 && page !in list
      modifies this`head, this`freeCount, this`links, this`list
      ensures Valid() && list == [page] + old(list)
      ensures forall p | p != page :: Next(links, p) == old(Next(links, p))
    {
      SpellsFrame(links, links[page := head], head, list);
      links := links[page := head];
      head := page;
      freeCount := freeCount + 1;
      list := [page] + list;
      assert list[1..] == old(list);
    }

    function Anchored(): Chain
      reads this
    {
      Chain(links, head, tail)
    }

    /**
      Adding memory that was found.  Its pages are linked after the one added last, and come
      last in the list, in order, if and only if that one is still the last.
     */
    method Add(start: nat, count: nat)
      requires Valid() && start != 0
      requires forall k: nat | k < count :: start + 4096 * k !in list
      modifies this
      ensures Anchored() == Sealed(Linked(old(Anchored()), start, count)) && freeCount == old(freeCount) + count
      ensures list == old(list) + Run(start, count)
      ensures count > 0 ==> (Valid() <==> TailRight(old(list), old(tail)))
      ensures TailRight(old(list), old(tail)) ==> Valid() && TailRight(list, tail)
    {
      ghost var c := Anchored();
      ghost var c', all := Sealed(Linked(c, start, count)), list + Run(start, count);
      Adds(c, list, start, count, c', all);
      var i := 0;
      while i < count
        invariant i <= count && list == old(list) && Anchored() == Linked(c, start, i) && freeCount == old(freeCount) + i
      {
        var page := start + 4096 * i;
        if tail == 0 { head := page; } else { links := links[tail := page]; }
        tail, freeCount, i := page, freeCount + 1, i + 1;
      }
      if tail == 0 { head := 0; } else { links := links[tail := 0]; }
      list := all;
    }
  }

  // ---------------------------------------------------------------- adding memory

  /** A list in links, and the page whose link the next new page is put in; 0 is for the head itself. */
  datatype Chain = Chain(links: Links, head: nat, tail: nat)

  function PutLink(c: Chain, page: nat): Chain { if c.tail == 0 then c.(head := page) else c.(links := c.links[c.tail := page]) }

  function LinkOne(c: Chain, page: nat): Chain { PutLink(c, page).(tail := page) }

  function Sealed(c: Chain): Chain { PutLink(c, 0) }

  function Linked(c: Chain, start: nat, count: nat): Chain
    decreases count
  {
    if count == 0 then c else LinkOne(Linked(c, start, count - 1), start + 4096 * (count - 1))
  }

  predicate TailRight(list: seq<nat>, tail: nat) { if list == [] then tail == 0 else tail == list[|list| - 1] }

  /** The link of each page of a list is the next one. */
  lemma {:induction false} SpellsAt(links: Links, head: nat, list: seq<nat>, k: nat)
    requires Spells(links, head, list) && k < |list|
    ensures head == list[0] && Next(links, list[k]) == if k + 1 < |list| then list[k + 1] else 0
    decreases |list|
  {
    if k > 0 {
      SpellsAt(links, Next(links, head), list[1..], k - 1);
    } else if |list| > 1 {
      SpellsAt(links, Next(links, head), list[1..], 0);
    }
  }

  lemma {:induction false} AllDistinct(list: seq<nat>, start: nat, count: nat)
    requires Distinct(list) && forall k: nat | k < count :: start + 4096 * k !in list
    ensures Distinct(list + Run(start, count))
  {
    var more := list + Run(start, count);
    forall i, j | 0 <= i < j < |more| ensures more[i] != more[j] {
      if i < |list| <= j {
        assert more[j] == start + 4096 * (j - |list|);
        assert more[i] in list;
      }
    }
  }

  /** After a right tail every page added is last in the list. */
  lemma {:induction false} LinkedSpells(c: Chain, list: seq<nat>, start: nat, count: nat)
    requires Spells(c.links, c.head, list) && Distinct(list) && TailRight(list, c.tail) && start != 0
    requires forall k: nat | k < count :: start + 4096 * k !in list
    ensures var c', all := Linked(c, start, count), list + Run(start, count);
            Spells(Sealed(c').links, Sealed(c').head, all) && TailRight(all, c'.tail)
    decreases count
  {
    if count == 0 {
      assert list + Run(start, 0) == list;
      SealedSpells(c, list);
    } else {
      var page, mid := start + 4096 * (count - 1), list + Run(start, count - 1);
      LinkedSpells(c, list, start, count - 1);
      RunApart(start, count - 1, page);
      assert list + Run(start, count) == mid + [page];
      AllDistinct(list, start, count - 1);
      assert page !in mid;
      var c1 := Linked(c, start, count - 1);
      assert Sealed(LinkOne(c1, page)) == Sealed(Linked(c, start, count));
      LinkOneSpells(c1, mid, page);
    }
  }

  /** A right tail's link is 0 already. */
  lemma SealedSpells(c: Chain, list: seq<nat>)
    requires Spells(c.links, c.head, list) && Distinct(list) && TailRight(list, c.tail)
    ensures Spells(Sealed(c).links, Sealed(c).head, list)
  {
    if list != [] {
      SpellsNoZero(c.links, c.head, list);
      SpellsAt(c.links, c.head, list, |list| - 1);
      SpellsFrame(c.links, Sealed(c).links, c.head, list);
    }
  }

  lemma {:induction false} LinkOneSpells(c: Chain, list: seq<nat>, page: nat)
    requires Spells(Sealed(c).links, Sealed(c).head, list) && Distinct(list) && TailRight(list, c.tail) && page != 0 && page !in list
    ensures var c' := Sealed(LinkOne(c, page)); Spells(c'.links, c'.head, list + [page]) && c'.tail == page
  {
    var c', s := Sealed(LinkOne(c, page)), Sealed(c);
    if list == [] {
      assert list + [page] == [page];
    } else {
      SpellsNoZero(s.links, s.head, list);
      SpellsAppend(s.links, s.head, list, page);
      assert c'.links == s.links[c.tail := page][page := 0];
    }
  }

  /** Only the pages added and the tail are written, and the head only if there was no tail. */
  lemma {:induction false} LinkedElsewhere(c: Chain, start: nat, count: nat, p: nat)
    requires start != 0 && count > 0 && p != c.tail && forall k: nat | k < count :: p != start + 4096 * k
    ensures var c' := Linked(c, start, count);
            && Next(c'.links, p) == Next(c.links, p) && c'.head == (if c.tail == 0 then start else c.head)
            && c'.tail == start + 4096 * (count - 1)
    decreases count
  {
    if count > 1 { LinkedElsewhere(c, start, count - 1, p); }
  }

  /** Memory is added to the list if and only if the tail is its last page, or there is none and the list is empty. */
  lemma AddExactly(c: Chain, list: seq<nat>, start: nat, count: nat)
    requires Spells(c.links, c.head, list) && Distinct(list) && start != 0 && count > 0
    requires forall k: nat | k < count :: start + 4096 * k !in list
    ensures var c' := Sealed(Linked(c, start, count)); Spells(c'.links, c'.head, list + Run(start, count)) <==> TailRight(list, c.tail)
  {
    if TailRight(list, c.tail) { LinkedSpells(c, list, start, count); } else { AddWrong(c, list, start, count); }
  }

  lemma Adds(c: Chain, list: seq<nat>, start: nat, count: nat, c': Chain, all: seq<nat>)
    requires Spells(c.links, c.head, list) && Distinct(list) && start != 0 && forall k: nat | k < count :: start + 4096 * k !in list
    requires c' == Sealed(Linked(c, start, count)) && all == list + Run(start, count)
    ensures Distinct(all) && (count > 0 ==> (Spells(c'.links, c'.head, all) <==> TailRight(list, c.tail)))
    ensures TailRight(list, c.tail) ==> Spells(c'.links, c'.head, all) && TailRight(all, c'.tail)
  {
    AllDistinct(list, start, count);
    if TailRight(list, c.tail) { LinkedSpells(c, list, start, count); }
    if count > 0 { AddExactly(c, list, start, count); }
  }

  lemma {:induction false} AddWrong(c: Chain, list: seq<nat>, start: nat, count: nat)
    requires Spells(c.links, c.head, list) && start != 0 && count > 0 && !TailRight(list, c.tail)
    requires forall k: nat | k < count :: start + 4096 * k !in list
    ensures var c' := Sealed(Linked(c, start, count)); !Spells(c'.links, c'.head, list + Run(start, count))
  {
    var c', all := Sealed(Linked(c, start, count)), list + Run(start, count);
    assert all[|list|] == start && start !in list by { assert Run(start, count)[0] == start + 4096 * 0; }
    if Spells(c'.links, c'.head, all) {
      SpellsAt(c'.links, c'.head, all, if list == [] then 0 else |list| - 1);
      if list == [] {
        LinkedElsewhere(c, start, count, 0);
      } else {
        SpellsAt(c.links, c.head, list, |list| - 1);
        LinkedElsewhere(c, start, count, list[|list| - 1]);
      }
    }
  }

  /** Memory added after every page has been handed out is never found. */
  lemma {:induction false} AddLost(links: Links, tail: nat, start: nat, count: nat)
    requires tail != 0 && start != 0 && count > 0
    ensures Spells(links, 0, []) && Sealed(Linked(Chain(links, 0, tail), start, count)).head == 0
  {
    LinkedElsewhere(Chain(links, 0, tail), start, count, 0);
  }

  function Run(start: nat, count: nat): (r: seq<nat>)
    ensures |r| == count && forall k | 0 <= k < count :: r[k] == start + 4096 * k
  {
    seq(count, k requires 0 <= k < count => start + 4096 * k)
  }

  lemma RunApart(start: nat, i: nat, page: nat)
    requires page == start + 4096 * i
    ensures page !in Run(start, i) && Run(start, i + 1) == Run(start, i) + [page]
  {
  }
}
