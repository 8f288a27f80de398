/** Cloning over tables in memory: what each round of the loop and each call of `clone` does. */
module PageCopies {
  import opened Wrappers
  import opened PageTree
  import opened PageOps
  import opened PageFrames
  import opened PageSpaces
  import opened PageClone
  import opened PageMemory

  /** The table in `from` is well formed, and none of its frames is free or `to`. */
  ghost predicate Source(mem: Tables, from: nat, d: nat, w: nat, to: nat, free: seq<nat>) {
    var kids := Kids(mem, from, d, w);
    && from in mem && |mem[from]| == FANOUT && w <= FANOUT && |kids| == w && (forall k | 0 <= k < w :: Shaped(kids[k], d))
    && forall f | f in multiset{from} + AllFrames(kids, d, |kids|) :: f != to && f !in free
  }

  /** What `clone` did: the entries of `to` are those `CloneKids` says, and only `to` and free frames were written. */
  ghost predicate Cloned(mem: Tables, mem': Tables, free: seq<nat>, free': seq<nat>, ram: Ram, ram': Ram,
                         from: nat, to: nat, d: nat, w: nat, ok: bool) {
    var o := CloneKids(Kids(mem, from, d, w), d, 0, free, ram);
    && (ok <==> o.Some?)
    && (ok ==>
          && Kids(mem', to, d, w) == o.value.kids && free' == o.value.free && ram' == o.value.ram
          && HighSame(mem, mem', to, w) && OnlyWrites(mem, mem', to, free))
  }

  ghost predicate OnlyWrites(mem: Tables, mem': Tables, to: nat, free: seq<nat>) {
    forall f | f != to && f !in free :: Same(mem, mem', f)
  }

  /** What a round of it did to entry `i`. */
  ghost predicate ClonedEntry(mem: Tables, mem': Tables, free: seq<nat>, free': seq<nat>, ram: Ram, ram': Ram,
                              t: Tree, to: nat, d: nat, w: nat, i: nat, ok: bool)
    requires i < |Kids(mem, to, d, w)|
  {
    var o := CloneNode(t, d, free, ram);
    && (ok <==> o.Some?)
    && (ok ==>
          && Kids(mem', to, d, w) == Kids(mem, to, d, w)[i := o.value.tree] && free' == o.value.free && ram' == o.value.ram
          && HighSame(mem, mem', to, w) && OnlyWrites(mem, mem', to, free))
  }

  /** The first `i` entries as they are, and the rest as they will be. */
  function Over(now: seq<Tree>, o: Option<CopiedKids>, i: nat): Option<CopiedKids>
    requires i <= |now|
  {
    match o
    case None => None
    case Some(s) => if i <= |s.kids| then Some(CopiedKids(now[..i] + s.kids[i..], s.free, s.ram)) else None
  }

  /** Half-way through: what is left to do completes the clone. */
  ghost predicate Cloning(mem0: Tables, mem: Tables, free0: seq<nat>, free: seq<nat>, ram0: Ram, ram: Ram,
                          from: nat, to: nat, d: nat, w: nat, i: nat) {
    var kids, now := Kids(mem0, from, d, w), Kids(mem, to, d, w);
    && i <= w && |now| == w == |kids| && (forall k | i <= k < w :: now[k] == Absent)
    && CloneKids(kids, d, 0, free0, ram0) == Over(now, CloneKids(kids, d, i, free, ram), i)
    && HighSame(mem0, mem, to, w) && OnlyWrites(mem0, mem, to, free0)
    && (forall f | f in free :: f in free0)
  }

  // ---------------------------------------------------------------- the source stays

  lemma KidsStay(mem: Tables, mem': Tables, frame: nat, d: nat, w: nat)
    requires Same(mem, mem', frame)
    requires var kids := Kids(mem, frame, d, w); forall f | f in AllFrames(kids, d, |kids|) :: Same(mem, mem', f)
    ensures Kids(mem', frame, d, w) == Kids(mem, frame, d, w)
  {
    var kids := Kids(mem, frame, d, w);
    if kids != [] {
      forall i | 0 <= i < w ensures TreeAt(mem', mem[frame][i], d) == kids[i] {
        KidOwned(kids, d, |kids|, i);
        TreeSame(mem, mem', mem[frame][i], d);
      }
    }
  }

  /** Writing `to` and free frames leaves the source a source. */
  lemma SourceKept(mem: Tables, mem': Tables, from: nat, d: nat, w: nat, to: nat, free: seq<nat>, free': seq<nat>)
    requires Source(mem, from, d, w, to, free) && OnlyWrites(mem, mem', to, free) && forall f | f in free' :: f in free
    ensures Source(mem', from, d, w, to, free') && Kids(mem', from, d, w) == Kids(mem, from, d, w)
  {
    var kids := Kids(mem, from, d, w);
    forall f | f in multiset{from} + AllFrames(kids, d, |kids|) ensures Same(mem, mem', f) {}
    KidsStay(mem, mem', from, d, w);
  }

  // ---------------------------------------------------------------- a round

  lemma OverNext(now: seq<Tree>, kids: seq<Tree>, d: nat, i: nat, free: seq<nat>, ram: Ram)
    requires i < |kids| == |now|
    ensures var o := CloneNode(kids[i], d, free, ram);
            Over(now, CloneKids(kids, d, i, free, ram), i)
            == if o.None? then None else Over(now[i := o.value.tree], CloneKids(kids, d, i + 1, o.value.free, o.value.ram), i + 1)
  {
    var o := CloneNode(kids[i], d, free, ram);
    if o.Some? {
      var rest := CloneKids(kids, d, i + 1, o.value.free, o.value.ram);
      if rest.Some? {
        var s, t := rest.value.kids, o.value.tree;
        assert now[..i] + s[i := t][i..] == now[i := t][..i + 1] + s[i + 1..];
      }
    }
  }

  /** The table cloned into stays well formed. */
  lemma TargetStays(mem: Tables, mem': Tables, free: seq<nat>, free': seq<nat>, ram: Ram, ram': Ram, t: Tree, to: nat, d: nat, w: nat, i: nat)
    requires NodeOk(mem, to, d, w, free) && i < w && Kids(mem, to, d, w)[i] == Absent && Shaped(t, d)
    requires ClonedEntry(mem, mem', free, free', ram, ram', t, to, d, w, i, true)
    ensures NodeOk(mem', to, d, w, free') && multiset(free') <= multiset(free)
  {
    TargetHeld(Kids(mem, to, d, w), d, i, t, free, ram);
  }

  lemma TargetHeld(now: seq<Tree>, d: nat, i: nat, t: Tree, free: seq<nat>, ram: Ram)
    requires i < |now| && now[i] == Absent && Shaped(t, d) && CloneNode(t, d, free, ram).Some?
    ensures var r := CloneNode(t, d, free, ram).value;
            && Shaped(r.tree, d) && multiset(r.free) <= multiset(free)
            && HeldKids(now[i := r.tree], d, r.free) == HeldKids(now, d, free)
  {
    var r := CloneNode(t, d, free, ram).value;
    CloneTakes(t, d, free, ram);
    FramesSet(now, d, |now|, i, r.tree);
    Exchanged(AllFrames(now[i := r.tree], d, |now|), AllFrames(now, d, |now|), Frames(r.tree, d), multiset(r.free), multiset(free));
  }

  lemma Exchanged(a': multiset<nat>, a: multiset<nat>, t: multiset<nat>, f': multiset<nat>, f: multiset<nat>)
    requires a' == a + t && t + f' == f
    ensures a' + f' == a + f && f' <= f
  {
  }

  lemma CloneStep(mem0: Tables, mem: Tables, mem': Tables, free0: seq<nat>, free: seq<nat>, free': seq<nat>,
                  ram0: Ram, ram: Ram, ram': Ram, from: nat, to: nat, d: nat, w: nat, i: nat, ok: bool)
    requires Cloning(mem0, mem, free0, free, ram0, ram, from, to, d, w, i) && i < w && NodeOk(mem, to, d, w, free)
    requires Shaped(Kids(mem0, from, d, w)[i], d)
    requires ClonedEntry(mem, mem', free, free', ram, ram', Kids(mem0, from, d, w)[i], to, d, w, i, ok)
    ensures ok ==> NodeOk(mem', to, d, w, free') && Cloning(mem0, mem', free0, free', ram0, ram', from, to, d, w, i + 1)
    ensures !ok ==> Cloned(mem0, mem', free0, free', ram0, ram', from, to, d, w, false)
  {
    var kids := Kids(mem0, from, d, w);
    OverNext(Kids(mem, to, d, w), kids, d, i, free, ram);
    if ok {
      TargetStays(mem, mem', free, free', ram, ram', kids[i], to, d, w, i);
      forall f | f in free' ensures f in free0 { assert f in multiset(free') && f in multiset(free); }
      forall f | f != to && f !in free0 ensures Same(mem0, mem', f) { assert Same(mem0, mem, f) && Same(mem, mem', f); }
    }
  }

  lemma CloneStarts(mem: Tables, free: seq<nat>, ram: Ram, from: nat, to: nat, d: nat, w: nat)
    requires Source(mem, from, d, w, to, free) && to in mem && |Kids(mem, to, d, w)| == w && AllAbsent(Kids(mem, to, d, w))
    ensures Cloning(mem, mem, free, free, ram, ram, from, to, d, w, 0)
  {
    var now, o := Kids(mem, to, d, w), CloneKids(Kids(mem, from, d, w), d, 0, free, ram);
    if o.Some? { assert now[..0] + o.value.kids[0..] == o.value.kids; }
  }

  lemma CloneEnds(mem0: Tables, mem: Tables, free0: seq<nat>, free: seq<nat>, ram0: Ram, ram: Ram, from: nat, to: nat, d: nat, w: nat)
    requires Cloning(mem0, mem, free0, free, ram0, ram, from, to, d, w, w)
    ensures Cloned(mem0, mem, free0, free, ram0, ram, from, to, d, w, true)
  {
    var now := Kids(mem, to, d, w);
    assert now[..w] + seq(w, k => Absent)[w..] == now;
  }

  // ---------------------------------------------------------------- one entry

  /** Entry `i` of `to` is set, its tree being in free frames only. */
  lemma EntrySet(mem: Tables, mem': Tables, free: seq<nat>, to: nat, d: nat, w: nat, i: nat, e: Entry)
    requires NodeOk(mem, to, d, w, free) && i < w <= FANOUT && to in mem' && mem'[to] == mem[to][i := e] && OnlyWrites(mem, mem', to, free)
    ensures Kids(mem', to, d, w) == Kids(mem, to, d, w)[i := TreeAt(mem', e, d)] && HighSame(mem, mem', to, w)
  {
    var kids, touched := Kids(mem, to, d, w), multiset(free);
    forall k: nat, f | k < w && k != i && f in Frames(kids[k], d) ensures f != to && f !in touched {
      Apart(kids, d, to, free, i, k, f);
      assert touched <= Held(kids[i], d, free);
    }
    assert Untouched(kids, d, i, to, touched);
    forall f | f != to && f !in touched ensures Same(mem, mem', f) { assert f !in free; }
    EntryChanged(mem, mem', to, d, w, i, e, touched);
  }

  /** No frame of the other entries is `to` or touched. */
  ghost predicate Untouched(kids: seq<Tree>, d: nat, i: nat, to: nat, touched: multiset<nat>) {
    forall k: nat, f | k < |kids| && k != i && f in Frames(kids[k], d) :: f != to && f !in touched
  }

  lemma EntryChanged(mem: Tables, mem': Tables, to: nat, d: nat, w: nat, i: nat, e: Entry, touched: multiset<nat>)
    requires i < w && |Kids(mem, to, d, w)| == w && to in mem' && mem'[to] == mem[to][i := e]
    requires (forall f | f != to && f !in touched :: Same(mem, mem', f)) && Untouched(Kids(mem, to, d, w), d, i, to, touched)
    ensures Kids(mem', to, d, w) == Kids(mem, to, d, w)[i := TreeAt(mem', e, d)]
  {
    KidSet(mem, mem', to, d, w, i, e, touched);
  }

  /** An entry with nothing below it. */
  lemma SkipCloned(mem: Tables, free: seq<nat>, ram: Ram, from: nat, to: nat, d: nat, w: nat, i: nat)
    requires Source(mem, from, d, w, to, free) && NodeOk(mem, to, d, w, free) && i < w && mem[from][i].Zero?
    requires Kids(mem, to, d, w)[i] == Absent
    ensures ClonedEntry(mem, mem, free, free, ram, ram, Kids(mem, from, d, w)[i], to, d, w, i, true)
  {
    assert Kids(mem, from, d, w)[i] == TreeAt(mem, mem[from][i], d);
    var now := Kids(mem, to, d, w);
    assert now[i := Absent] == now;
  }

  /** A page is copied to the first free frame. */
  lemma PageCloned(mem: Tables, mem': Tables, free: seq<nat>, ram: Ram, to: nat, d: nat, w: nat, i: nat, f: nat, flags: Flags)
    requires NodeOk(mem, to, d, w, free) && d == 0 && i < w <= FANOUT && free != [] && free[0] != to
    requires mem' == mem[free[0] := Zeros()][to := mem[to][i := Present(free[0], flags)]]
    ensures ClonedEntry(mem, mem', free, free[1..], ram, ram[free[0] := Read(ram, f)], Page(f, flags), to, d, w, i, true)
  {
    EntrySet(mem, mem', free, to, d, w, i, Present(free[0], flags));
  }

  /** A new table for entry `i` is ready to be cloned into. */
  lemma Opened(mem: Tables, mem1: Tables, free: seq<nat>, from: nat, to: nat, d: nat, w: nat, i: nat)
    requires NodeOk(mem, to, d, w, free) && Source(mem, from, d, w, to, free) && d > 0 && i < w && free != []
    requires Kids(mem, to, d, w)[i] == Absent && mem[from][i].Present?
    requires mem1 == mem[free[0] := Zeros()][to := mem[to][i := Present(free[0], INTERMEDIATE)]]
    ensures var t, sub := free[0], mem[from][i].frame;
            && t != to && OnlyWrites(mem, mem1, to, free)
            && NodeOk(mem1, t, d - 1, FANOUT, free[1..]) && AllAbsent(Kids(mem1, t, d - 1, FANOUT))
            && Source(mem1, sub, d - 1, FANOUT, t, free[1..])
            && Kids(mem, from, d, w)[i] == Table(sub, Kids(mem1, sub, d - 1, FANOUT))
  {
    assert Kids(mem, to, d, w)[i] == TreeAt(mem, mem[to][i], d);
    assert mem[to][i].Zero?;
    NewOk(mem, mem1, to, d, w, i, free);
    SubSource(mem, from, d, w, to, free, i);
    var sub := mem[from][i].frame;
    SourceKept(mem, mem1, sub, d - 1, FANOUT, to, free, free[1..]);
  }

  /** A table of the source is a source. */
  lemma SubSource(mem: Tables, from: nat, d: nat, w: nat, to: nat, free: seq<nat>, i: nat)
    requires Source(mem, from, d, w, to, free) && d > 0 && i < w && mem[from][i].Present?
    ensures var sub := mem[from][i].frame;
            && Source(mem, sub, d - 1, FANOUT, to, free) && Kids(mem, from, d, w)[i] == Table(sub, Kids(mem, sub, d - 1, FANOUT))
  {
    var kids, sub := Kids(mem, from, d, w), mem[from][i].frame;
    var below := Kids(mem, sub, d - 1, FANOUT);
    KidOwned(kids, d, |kids|, i);
    assert kids[i] == TreeAt(mem, mem[from][i], d) == Table(sub, below);
    assert Shaped(kids[i], d);
    forall f | f in AllFrames(kids, d, |kids|) ensures f != to && f !in free { assert f in multiset{from} + AllFrames(kids, d, |kids|); }
    SubApart(kids, d, i, sub, below, to, free);
  }

  lemma SubApart(kids: seq<Tree>, d: nat, i: nat, sub: nat, below: seq<Tree>, to: nat, free: seq<nat>)
    requires d > 0 && i < |kids| && kids[i] == Table(sub, below) && Frames(kids[i], d) <= AllFrames(kids, d, |kids|)
    requires forall f | f in AllFrames(kids, d, |kids|) :: f != to && f !in free
    ensures forall f | f in multiset{sub} + AllFrames(below, d - 1, |below|) :: f != to && f !in free
  {
    forall f | f in multiset{sub} + AllFrames(below, d - 1, |below|) ensures f != to && f !in free {
      assert Frames(kids[i], d) == multiset{sub} + AllFrames(below, d - 1, |below|);
      assert f in Frames(kids[i], d);
    }
  }

  /** Once the table below has been cloned, entry `i` has been. */
  lemma TableCloned(mem: Tables, mem1: Tables, mem2: Tables, free: seq<nat>, free2: seq<nat>, ram: Ram, ram2: Ram,
                    sub: nat, to: nat, d: nat, w: nat, i: nat, ok: bool)
    requires NodeOk(mem, to, d, w, free) && d > 0 && i < w <= FANOUT && free != [] && free[0] != to && to !in free[1..]
    requires mem1 == mem[free[0] := Zeros()][to := mem[to][i := Present(free[0], INTERMEDIATE)]]
    requires Cloned(mem1, mem2, free[1..], free2, ram, ram2, sub, free[0], d - 1, FANOUT, ok)
    ensures ClonedEntry(mem, mem2, free, free2, ram, ram2, Table(sub, Kids(mem1, sub, d - 1, FANOUT)), to, d, w, i, ok)
  {
    if ok {
      assert Same(mem1, mem2, to);
      forall f | f != to && f !in free ensures Same(mem, mem2, f) { assert Same(mem1, mem2, f); }
      EntrySet(mem, mem2, free, to, d, w, i, Present(free[0], INTERMEDIATE));
    }
  }

  /** A frame of the free list is not the table cloned into. */
  lemma FreeNotTarget(mem: Tables, to: nat, d: nat, w: nat, free: seq<nat>)
    requires NodeOk(mem, to, d, w, free)
    ensures to !in free
  {
    var all := multiset{to} + HeldKids(Kids(mem, to, d, w), d, free);
    assert to in all && all[to] == 1;
    assert all[to] >= 1 + multiset(free)[to];
  }
}
