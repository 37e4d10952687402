/** The address space that fork makes: create_page_dir of userprog/process.c and copy_body_stack3 of userprog/fork.c. */
module Fork {
  import opened Words
  import opened Bitmaps
  import opened Paging
  import opened Memory

  /** The same memory seen with another page directory active. */
  function As(s: Vm, pd: nat): Vm {
    s.(pd := pd)
  }

  predicate UserPage(s: Vm, p: nat) {
    USER_PAGE <= p < USER_PAGE + |s.uv|
  }

  /** Frame g belongs to this address space alone: it holds one of its page tables below the kernel's, or one of its pages. */
  ghost predicate Mine(s: Vm, g: nat)
    requires s.pd < |s.mem|
  {
    || (exists i: nat :: i < 768 && HasTable(s.mem, s.pd, i) && TableFrame(s.mem, s.pd, i) == g)
    || (exists p: nat :: UserPage(s, p) && Mapping(s, p) == Some(g))
  }

  /** Frame g holds no table of this address space and none of its user pages. */
  ghost predicate Alien(s: Vm, g: nat)
    requires s.pd < |s.mem|
  {
    !IsTable(s.mem, s.pd, g) && forall p: nat :: UserPage(s, p) ==> Mapping(s, p) != Some(g)
  }

  /** Directory f shares the kernel's entries with the active one and nothing else. */
  ghost predicate Unshared(s: Vm, f: nat)
    requires s.pd < |s.mem| && f < |s.mem|
  {
    && Alien(s, f) && (forall g: nat :: Mine(As(s, f), g) ==> Alien(s, g))
    && forall i :: 768 <= i < SELF ==> s.mem[f][i] == s.mem[s.pd][i]
  }

  /** The active address space and that of directory f are both sound, and apart. Directory f lies in page v of the kernel's
      heap. */
  ghost predicate Two(l: Pools, s: Vm, f: nat, v: nat) {
    && Sound(l, s) && f < |s.mem| && Sound(l, As(s, f)) && Unshared(s, f)
    && PfOf(v) == PF_KERNEL && Mapping(As(s, f), v) == Some(f)
  }

  // --- Changes that an address space does not notice ---

  lemma Elsewhere(l: Pools, s: Vm, t: Vm)
    requires Sound(l, s) && Fits(l, t) && t == s.(frames := t.frames, mem := t.mem)
    requires forall b :: 0 <= b < |s.frames| && s.frames[b] ==> t.frames[b]
    requires forall g :: 0 <= g < |s.mem| && t.mem[g] != s.mem[g] ==> !IsTable(s.mem, s.pd, g)
    ensures Sound(l, t) && t.mem[t.pd] == s.mem[s.pd]
    ensures forall p: nat :: Mapping(t, p) == Mapping(s, p)
    ensures forall g: nat :: IsTable(t.mem, t.pd, g) <==> IsTable(s.mem, s.pd, g)
  {
    SameTables(s.mem, t.mem, s.pd);
    hide Lookup, Directory, IsTable;
    forall p: nat
      ensures Mapping(t, p) == Mapping(s, p)
    {
    }
    forall p: nat
      ensures PageSound(l, t, p)
    {
      assert PageSound(l, s, p);
    }
  }

  lemma SameTables(mem: seq<Frame>, m: seq<Frame>, pd: nat)
    requires Directory(mem, pd) && |m| == |mem|
    requires forall g :: 0 <= g < |mem| && m[g] != mem[g] ==> !IsTable(mem, pd, g)
    ensures m[pd] == mem[pd] && Directory(m, pd)
    ensures forall k :: 0 <= k < ENTRIES ==> HasTable(m, pd, k) == HasTable(mem, pd, k)
    ensures forall f: nat :: IsTable(m, pd, f) <==> IsTable(mem, pd, f)
    ensures forall p :: 0 <= p < SELF * ENTRIES ==> Lookup(m, pd, p) == Lookup(mem, pd, p)
  {
    assert IsTable(mem, pd, pd);
    SameDirectory(mem, m, pd);
    forall p | 0 <= p < SELF * ENTRIES
      ensures Lookup(m, pd, p) == Lookup(mem, pd, p)
    {
      var k := p / ENTRIES;
      if HasTable(mem, pd, k) {
        assert IsTable(mem, pd, TableFrame(mem, pd, k));
      }
    }
  }

  // --- create_page_dir ---

  /** The page directory that create_page_dir fills in: the kernel's entries and a reference to itself. */
  function NewDirectory(active: Frame, f: nat): (d: Frame)
    requires f < 0x10_0000
    ensures forall i :: 0 <= i < ENTRIES ==> d[i] == if i < 768 then 0 else if i < SELF then active[i] else Entry(f)
  {
    seq(1024, i requires 0 <= i < 1024 => NewEntry(active, f, i))
  }

  function NewEntry(active: Frame, f: nat, i: nat): u32
    requires f < 0x10_0000 && i < ENTRIES
  {
    if i < 768 then 0 else if i < SELF then active[i] else Entry(f)
  }

  /** Once a fresh kernel page has been filled in like that there are two sound address spaces, apart but for the kernel's
      half, and the new one has no user page. */
  lemma DirectoryMade(l: Pools, s: Vm, f: nat, v: nat)
    requires Sound(l, s) && f < |s.mem| && !IsTable(s.mem, s.pd, f)
    requires PfOf(v) == PF_KERNEL && Mapping(s, v) == Some(f)
    ensures var t := s.(mem := s.mem[f := NewDirectory(s.mem[s.pd], f)]);
            && Two(l, t, f, v)
            && (forall p: nat :: Mapping(t, p) == Mapping(s, p))
            && forall p: nat :: UserPage(t, p) ==> Mapping(As(t, f), p) == None
  {
    var t := s.(mem := s.mem[f := NewDirectory(s.mem[s.pd], f)]);
    Elsewhere(l, s, t);
    NewTables(s.mem, s.pd, f);
    NewDirectorySound(l, t, f, v);
  }

  lemma NewTables(mem: seq<Frame>, pd: nat, f: nat)
    requires Directory(mem, pd) && f < |mem| && !IsTable(mem, pd, f)
    ensures var m := mem[f := NewDirectory(mem[pd], f)];
            && Directory(m, f) && m[pd] == mem[pd]
            && (forall i :: 0 <= i < 768 ==> !HasTable(m, f, i))
            && (forall i :: 768 <= i < SELF ==> m[f][i] == m[pd][i])
            && (forall p :: 0 <= p < SELF * ENTRIES ==>
                  Lookup(m, f, p) == if p < 768 * ENTRIES then None else Lookup(m, pd, p))
            && (forall g: nat :: IsTable(m, f, g) ==> g == f || (g != pd && IsTable(m, pd, g)))
  {
    EntryFields(f);
    var m := mem[f := NewDirectory(mem[pd], f)];
    assert IsTable(mem, pd, pd) && m[pd] == mem[pd];
    forall i | 0 <= i < SELF && HasTable(m, f, i)
      ensures i >= 768 && HasTable(mem, pd, i) && TableFrame(m, f, i) == TableFrame(mem, pd, i) != f
    {
      assert m[f][i] == mem[pd][i];
      assert IsTable(mem, pd, TableFrame(mem, pd, i));
    }
    forall i, k | 0 <= i < SELF && 0 <= k < SELF && i != k && HasTable(m, f, i) && HasTable(m, f, k)
      ensures TableFrame(m, f, i) != TableFrame(m, f, k)
    {
    }
    forall g: nat | IsTable(m, f, g) && g != f
      ensures g != pd && IsTable(m, pd, g)
    {
      var i :| 0 <= i < SELF && HasTable(m, f, i) && TableFrame(m, f, i) == g;
      assert HasTable(m, pd, i) && TableFrame(m, pd, i) == g;
    }
    forall p | 0 <= p < SELF * ENTRIES
      ensures Lookup(m, f, p) == if p < 768 * ENTRIES then None else Lookup(m, pd, p)
    {
      assert m[f][p / ENTRIES] == if p / ENTRIES < 768 then 0 else m[pd][p / ENTRIES];
    }
  }

  lemma NewDirectorySound(l: Pools, t: Vm, f: nat, v: nat)
    requires Sound(l, t) && f < |t.mem| && !IsTable(t.mem, t.pd, f) && Directory(t.mem, f)
    requires forall i :: 0 <= i < 768 ==> !HasTable(t.mem, f, i)
    requires forall i :: 768 <= i < SELF ==> t.mem[f][i] == t.mem[t.pd][i]
    requires forall p :: 0 <= p < SELF * ENTRIES ==>
               Lookup(t.mem, f, p) == if p < 768 * ENTRIES then None else Lookup(t.mem, t.pd, p)
    requires forall g: nat :: IsTable(t.mem, f, g) ==> g == f || (g != t.pd && IsTable(t.mem, t.pd, g))
    requires PfOf(v) == PF_KERNEL && Mapping(t, v) == Some(f)
    ensures Two(l, t, f, v) && forall p: nat :: UserPage(t, p) ==> Mapping(As(t, f), p) == None
  {
    var c := As(t, f);
    assert forall p: nat :: Mapping(c, p) == if PfOf(p) == PF_USER then None else Mapping(t, p);
    hide Lookup, IsTable, Mapping;
    forall p: nat
      ensures PageSound(l, c, p)
    {
      assert PageSound(l, t, p);
    }
    assert PageSound(l, t, v);
    forall b: nat | b < PoolBits(l) && IsTable(c.mem, c.pd, FrameAt(l, b))
      ensures c.frames[b]
    {
    }
    assert forall i :: 768 <= i < SELF ==> HasTable(t.mem, f, i) == HasTable(t.mem, t.pd, i);
    assert Sound(l, c);
    forall p: nat | UserPage(t, p)
      ensures Mapping(t, p) != Some(f) && Mapping(c, p) == None
    {
      assert PfOf(p) == PF_USER;
    }
  }

  // --- Copying one page ---

  /** The frames that page_table_add writes to: the active directory and the page's table, which is the old one or new. */
  lemma ViaChanges(l: Pools, s: Vm, t: Vm, p: nat, b: nat, news: set<nat>)
    requires Via(l, s, t, p, b, news)
    ensures |t.mem| == |s.mem| && t.pd == s.pd && t.kv == s.kv && t.uv == s.uv
    ensures HasTable(t.mem, t.pd, p / ENTRIES) && TableFrame(t.mem, t.pd, p / ENTRIES) < |t.mem|
    ensures forall k :: 0 <= k < ENTRIES && k != p / ENTRIES ==> t.mem[t.pd][k] == s.mem[s.pd][k]
    ensures var i := p / ENTRIES;
            var table := TableFrame(t.mem, t.pd, i);
            && (forall g :: 0 <= g < |s.mem| && t.mem[g] != s.mem[g] ==> g == s.pd || g == table)
            && if HasTable(s.mem, s.pd, i) then table == TableFrame(s.mem, s.pd, i)
               else exists c: nat :: c < PoolBits(l) && news == {c} && table == FrameAt(l, c)
  {
    var i := p / ENTRIES;
    if !HasTable(s.mem, s.pd, i) {
      var c: nat :| news == {c} && ViaTable(l, s, t, p, b, c);
      var m := TableOf(l, s, i, c);
      EntryFields(FrameAt(l, c));
      assert m.mem[s.pd] == if FrameAt(l, c) == s.pd then ZeroFrame() else s.mem[s.pd][i := Entry(FrameAt(l, c))];
      assert m.mem[s.pd][i] != 0;
    }
  }

  /** Everything that a page copied into the other address space changes: a frame for it and perhaps one for its table. */
  ghost predicate CopyStep(l: Pools, s: Vm, r: Vm, t: Vm, f: nat, p: nat, b: nat, news: set<nat>, data: Frame) {
    && f < |s.mem| && InPool(l, PF_USER, b) && Fits(l, s) && !s.frames[b] && UserPage(s, p)
    && Sound(l, r)
    && Fits(l, As(s, f).(frames := s.frames[b := true]))
    && Added(l, As(s, f).(frames := s.frames[b := true]), r, p, b, news)
    && Via(l, As(s, f).(frames := s.frames[b := true]), r, p, b, news)
    && FrameAt(l, b) < |r.mem|
    && t == As(r.(mem := r.mem[FrameAt(l, b) := data]), s.pd)
  }

  /** The frames it writes to are none of the active address space's own. */
  lemma CopyIsAlien(l: Pools, s: Vm, r: Vm, t: Vm, f: nat, v: nat, p: nat, b: nat, news: set<nat>, data: Frame)
    requires Two(l, s, f, v) && CopyStep(l, s, r, t, f, p, b, news, data)
    ensures Alien(s, FrameAt(l, b)) && FrameAt(l, b) != f && !IsTable(r.mem, f, FrameAt(l, b))
    ensures Alien(s, TableFrame(r.mem, f, p / ENTRIES))
    ensures forall g: nat :: g < |s.mem| && t.mem[g] != s.mem[g] ==> Alien(s, g)
  {
    hide Mapping, Lookup, SameContents, Tables, MoreTables, Directory;
    var c := As(s, f).(frames := s.frames[b := true]);
    ViaChanges(l, c, r, p, b, news);
    ClearIsAlien(l, s, b);
    assert PageSound(l, As(s, f), v);
    assert PageSound(l, r, p);
    var i := p / ENTRIES;
    if HasTable(s.mem, f, i) {
      assert Mine(As(s, f), TableFrame(s.mem, f, i));
    } else {
      var e: nat :| e < PoolBits(l) && news == {e} && TableFrame(r.mem, f, i) == FrameAt(l, e);
      assert e in news;
      ClearIsAlien(l, s, e);
    }
  }

  lemma ClearIsAlien(l: Pools, s: Vm, b: nat)
    requires Sound(l, s) && b < PoolBits(l) && !s.frames[b]
    ensures Alien(s, FrameAt(l, b))
  {
    ClearUnused(l, s, b);
  }

  /** Copying a page keeps the two address spaces sound and apart; the active one is unchanged, and in the other just that
      page has been added, with the contents given. */
  lemma CopyKeepsTwo(l: Pools, s: Vm, r: Vm, t: Vm, f: nat, v: nat, p: nat, b: nat, news: set<nat>, data: Frame)
    requires Two(l, s, f, v) && CopyStep(l, s, r, t, f, p, b, news, data)
    ensures Two(l, t, f, v)
    ensures forall q: nat :: Mapping(t, q) == Mapping(s, q)
    ensures Mapping(As(t, f), p) == Some(FrameAt(l, b)) && t.mem[FrameAt(l, b)] == data
    ensures forall q: nat :: q != p ==> Mapping(As(t, f), q) == Mapping(As(s, f), q)
  {
    hide Mapping, Lookup, SameContents, Tables, MoreTables, Directory, Sound;
    CopyIsAlien(l, s, r, t, f, v, p, b, news, data);
    ElsewhereFits(l, s, r, t, f, p, b, news, data);
    Elsewhere(l, s, t);
    Elsewhere(l, r, As(t, f));
    ViaChanges(l, As(s, f).(frames := s.frames[b := true]), r, p, b, news);
    SameMappings(As(s, f), As(s, f).(frames := s.frames[b := true]));
    NewlyMine(l, s, r, t, f, p, b, news, data);
  }

  lemma ElsewhereFits(l: Pools, s: Vm, r: Vm, t: Vm, f: nat, p: nat, b: nat, news: set<nat>, data: Frame)
    requires CopyStep(l, s, r, t, f, p, b, news, data)
    ensures Fits(l, t) && Fits(l, As(t, f)) && t == s.(frames := t.frames, mem := t.mem)
    ensures As(t, f) == r.(frames := As(t, f).frames, mem := As(t, f).mem)
    ensures forall c :: 0 <= c < |s.frames| && s.frames[c] ==> t.frames[c]
    ensures forall g :: 0 <= g < |r.mem| && t.mem[g] != r.mem[g] ==> g == FrameAt(l, b)
  {
    hide Mapping, Lookup, SameContents, Tables, MoreTables, Directory, Sound, Via;
    var c := As(s, f).(frames := s.frames[b := true]);
    assert forall e :: 0 <= e < PoolBits(l) ==> (r.frames[e] <==> c.frames[e] || e in news);
  }

  /** What the other address space owns after the copy. */
  lemma NewlyMine(l: Pools, s: Vm, r: Vm, t: Vm, f: nat, p: nat, b: nat, news: set<nat>, data: Frame)
    requires CopyStep(l, s, r, t, f, p, b, news, data)
    requires t.pd == s.pd && |t.mem| == |s.mem| && f < |t.mem| && t.uv == s.uv
    requires t.mem[f] == r.mem[f] && HasTable(r.mem, f, p / ENTRIES)
    requires forall k :: 0 <= k < ENTRIES && k != p / ENTRIES ==> r.mem[f][k] == s.mem[f][k]
    requires forall q: nat :: Mapping(As(t, f), q) == Mapping(r, q)
    requires forall q: nat :: q != p ==> Mapping(r, q) == Mapping(As(s, f), q)
    requires Mapping(r, p) == Some(FrameAt(l, b))
    ensures forall g: nat :: Mine(As(t, f), g) ==>
              Mine(As(s, f), g) || g == FrameAt(l, b) || g == TableFrame(r.mem, f, p / ENTRIES)
  {
    hide Mapping, Lookup, SameContents, Tables, MoreTables, Directory, Sound, Via, Added;
    forall g: nat | Mine(As(t, f), g)
      ensures Mine(As(s, f), g) || g == FrameAt(l, b) || g == TableFrame(r.mem, f, p / ENTRIES)
    {
      if i: nat :| i < 768 && HasTable(t.mem, f, i) && TableFrame(t.mem, f, i) == g {
        if i != p / ENTRIES {
          assert HasTable(s.mem, f, i) && TableFrame(s.mem, f, i) == g;
        }
      } else {
        var q: nat :| UserPage(As(t, f), q) && Mapping(As(t, f), q) == Some(g);
        assert |As(t, f).uv| == |As(s, f).uv|;
        assert q != p ==> UserPage(As(s, f), q) && Mapping(As(s, f), q) == Some(g);
      }
    }
  }

  // --- Copying all pages ---

  /** Page p of the address space of directory f holds what the active one's page p held in state s0. */
  ghost predicate SameAsFirst(s0: Vm, s: Vm, f: nat, p: nat) {
    && Mapping(s0, p).Some? && Mapping(s0, p).value < |s0.mem|
    && Mapping(As(s, f), p).Some? && Mapping(As(s, f), p).value < |s.mem|
    && s.mem[Mapping(As(s, f), p).value] == s0.mem[Mapping(s0, p).value]
  }

  /** Of the user pages recorded in the address bitmap the first n addresses have been dealt with: those that are recorded
      are in the other address space with the contents they had, and nothing else is; the active one is as it was. */
  ghost predicate Copying(l: Pools, s0: Vm, s: Vm, f: nat, v: nat, n: nat) {
    && Two(l, s, f, v) && s == s0.(frames := s.frames, mem := s.mem) && |s.mem| == |s0.mem|
    && (forall q: nat :: Mapping(s, q) == Mapping(s0, q))
    && (forall q: nat :: UserPage(s0, q) && Mapping(s0, q).Some? ==>
          Mapping(s0, q).value < |s0.mem| && s.mem[Mapping(s0, q).value] == s0.mem[Mapping(s0, q).value])
    && (forall p: nat :: UserPage(s0, p) ==>
          if p < USER_PAGE + n && s0.uv[p - USER_PAGE] then SameAsFirst(s0, s, f, p) else Mapping(As(s, f), p) == None)
  }

  /** The contents of the user pages that both address spaces had. */
  lemma CopyContents(l: Pools, s: Vm, r: Vm, t: Vm, f: nat, v: nat, p: nat, b: nat, news: set<nat>, data: Frame, q: nat)
    requires Two(l, s, f, v) && CopyStep(l, s, r, t, f, p, b, news, data) && UserPage(s, q)
    ensures forall g: nat :: Mapping(s, q) == Some(g) ==> g < |s.mem| && t.mem[g] == s.mem[g]
    ensures forall g: nat :: q != p && Mapping(As(s, f), q) == Some(g) ==> g < |s.mem| && t.mem[g] == s.mem[g]
  {
    hide Mapping, Lookup, SameContents, Tables, MoreTables, Directory;
    CopyIsAlien(l, s, r, t, f, v, p, b, news, data);
    ViaChanges(l, As(s, f).(frames := s.frames[b := true]), r, p, b, news);
    assert PageSound(l, s, q);
    if q != p && Mapping(As(s, f), q).Some? {
      SameMappings(As(s, f), As(s, f).(frames := s.frames[b := true]));
      assert PageSound(l, As(s, f), q) && PageSound(l, r, q);
      assert PfOf(q) == PF_USER && q != v;
      assert Mapping(As(s, f), q).value != f;
    }
  }

  lemma CopyingStep(l: Pools, s0: Vm, s: Vm, r: Vm, t: Vm, f: nat, v: nat, k: nat, b: nat, news: set<nat>, data: Frame)
    requires Copying(l, s0, s, f, v, k) && k < |s0.uv| && s0.uv[k]
    requires CopyStep(l, s, r, t, f, USER_PAGE + k, b, news, data)
    requires Mapping(s0, USER_PAGE + k).Some? && Mapping(s0, USER_PAGE + k).value < |s.mem|
    requires data == s.mem[Mapping(s0, USER_PAGE + k).value]
    ensures Copying(l, s0, t, f, v, k + 1)
  {
    hide Mapping, Two, CopyStep;
    var p := USER_PAGE + k;
    CopyKeepsTwo(l, s, r, t, f, v, p, b, news, data);
    CopyShape(l, s, r, t, f, v, p, b, news, data);
    forall q: nat | UserPage(s0, q)
      ensures Mapping(s0, q).Some? ==>
                Mapping(s0, q).value < |s0.mem| && t.mem[Mapping(s0, q).value] == s0.mem[Mapping(s0, q).value]
      ensures if q < USER_PAGE + k + 1 && s0.uv[q - USER_PAGE] then SameAsFirst(s0, t, f, q) else Mapping(As(t, f), q) == None
    {
      CopyContents(l, s, r, t, f, v, p, b, news, data, q);
    }
  }

  lemma CopyShape(l: Pools, s: Vm, r: Vm, t: Vm, f: nat, v: nat, p: nat, b: nat, news: set<nat>, data: Frame)
    requires Two(l, s, f, v) && CopyStep(l, s, r, t, f, p, b, news, data)
    ensures t == s.(frames := t.frames, mem := t.mem) && |t.mem| == |s.mem| && FrameAt(l, b) < |t.mem|
  {
    hide Mapping, Lookup, SameContents, Tables, MoreTables, Directory, Sound;
    ElsewhereFits(l, s, r, t, f, p, b, news, data);
    ViaChanges(l, As(s, f).(frames := s.frames[b := true]), r, p, b, news);
  }

  /** Addresses that are not recorded are passed over. */
  lemma CopyingSkip(l: Pools, s0: Vm, s: Vm, f: nat, v: nat, n: nat, m: nat)
    requires Copying(l, s0, s, f, v, n) && n <= m <= |s0.uv| && forall k :: n <= k < m ==> !s0.uv[k]
    ensures Copying(l, s0, s, f, v, m)
  {
    hide Mapping, Two;
  }

  // --- Enough frames ---

  /** The recorded addresses from k on. */
  function Remaining(uv: seq<bool>, k: nat): nat
    requires k <= |uv|
    decreases |uv| - k
  {
    if k == |uv| then 0 else (if uv[k] then 1 else 0) + Remaining(uv, k + 1)
  }

  /** The page tables that these still need, when the entries below `next` have been dealt with. */
  function TablesFrom(uv: seq<bool>, k: nat, next: nat): nat
    requires k <= |uv|
    decreases |uv| - k
  {
    if k == |uv| then 0
    else
      var i := (USER_PAGE + k) / ENTRIES;
      if uv[k] && i >= next then 1 + TablesFrom(uv, k + 1, i + 1) else TablesFrom(uv, k + 1, next)
  }

  lemma {:induction false} NeedsSkip(uv: seq<bool>, n: nat, m: nat, next: nat)
    requires n <= m <= |uv| && forall k :: n <= k < m ==> !uv[k]
    ensures Remaining(uv, n) == Remaining(uv, m) && TablesFrom(uv, n, next) == TablesFrom(uv, m, next)
    decreases m - n
  {
    if n < m {
      NeedsSkip(uv, n + 1, m, next);
    }
  }

  /** The pools have frames for what is still to be copied from address k on. */
  ghost predicate Enough(l: Pools, s: Vm, f: nat, k: nat, next: nat) {
    && Fits(l, s) && f < |s.mem| && k <= |s.uv|
    && CountClear(PoolOf(l, PF_USER, s.frames)) >= Remaining(s.uv, k)
    && CountClear(PoolOf(l, PF_KERNEL, s.frames)) >= TablesFrom(s.uv, k, next)
    && next <= (USER_PAGE + k) / ENTRIES + 1 && (next > 0 ==> HasTable(s.mem, f, next - 1))
  }

  // --- The code ---

  /** memcpy of a page from a virtual address */
  method LoadPage(mm: Manager, vaddr: u32) returns (buf: Frame)
    requires vaddr % PAGE_SIZE == 0 && Lookup(mm.mem, mm.pd, vaddr / PAGE_SIZE).Some?
    requires Lookup(mm.mem, mm.pd, vaddr / PAGE_SIZE).value < |mm.mem|
    ensures buf == mm.mem[Lookup(mm.mem, mm.pd, vaddr / PAGE_SIZE).value]
  {
    buf := mm.mem[Lookup(mm.mem, mm.pd, vaddr / PAGE_SIZE).value];
  }

  /** memcpy of a page to a virtual address */
  method StorePage(mm: Manager, vaddr: u32, buf: Frame)
    requires vaddr % PAGE_SIZE == 0 && Lookup(mm.mem, mm.pd, vaddr / PAGE_SIZE).Some?
    requires Lookup(mm.mem, mm.pd, vaddr / PAGE_SIZE).value < |mm.mem|
    modifies mm`mem
    ensures mm.mem == old(mm.mem)[old(Lookup(mm.mem, mm.pd, vaddr / PAGE_SIZE)).value := buf]
  {
    mm.mem := mm.mem[Lookup(mm.mem, mm.pd, vaddr / PAGE_SIZE).value := buf];
  }

  /** get_a_page for an address that the bitmap already records */
  method GetAPage(mm: Manager, vaddr: u32) returns (ghost b: nat, ghost news: set<nat>)
    requires mm.Valid() && vaddr % PAGE_SIZE == 0 && UserPage(mm.State(), vaddr / PAGE_SIZE)
    requires mm.State().uv[vaddr / PAGE_SIZE - USER_PAGE] && Mapping(mm.State(), vaddr / PAGE_SIZE) == None
    requires CountClear(PoolOf(mm.pools, PF_USER, mm.State().frames)) > 0
    requires HasTable(mm.mem, mm.pd, vaddr / PAGE_SIZE / ENTRIES)
             || CountClear(PoolOf(mm.pools, PF_KERNEL, mm.State().frames)) > 0
    modifies mm`mem, mm.bits
    ensures mm.Valid() && InPool(mm.pools, PF_USER, b) && !old(mm.State()).frames[b]
    ensures var s := old(mm.State()).(frames := old(mm.State()).frames[b := true]);
            && Fits(mm.pools, s)
            && Added(mm.pools, s, mm.State(), vaddr / PAGE_SIZE, b, news)
            && Via(mm.pools, s, mm.State(), vaddr / PAGE_SIZE, b, news)
    ensures CountClear(PoolOf(mm.pools, PF_USER, mm.State().frames)) ==
            CountClear(PoolOf(mm.pools, PF_USER, old(mm.State()).frames)) - 1
    ensures CountClear(PoolOf(mm.pools, PF_KERNEL, mm.State().frames)) ==
            CountClear(PoolOf(mm.pools, PF_KERNEL, old(mm.State()).frames)) - |news|
    ensures if old(HasTable(mm.mem, mm.pd, vaddr / PAGE_SIZE / ENTRIES)) then news == {} else |news| == 1
    ensures forall k :: 0 <= k < SELF ==>
              (HasTable(mm.mem, mm.pd, k) <==> k == vaddr / PAGE_SIZE / ENTRIES || old(HasTable(mm.mem, mm.pd, k)))
    ensures UserAccess(mm.mem, mm.pd, vaddr / PAGE_SIZE)
  {
    hide UserAccess, AllOpen, Mapping, Lookup, CountClear, PoolOf, BitsOf, Added, Via, Sound, HasTable;
    ghost var s := mm.State();
    SoundFits(mm.pools, s);
    var pagePhyaddr;
    pagePhyaddr, b := mm.Palloc(PF_USER);
    ghost var t := mm.State();
    TakenIsAddable(mm.pools, s, vaddr / PAGE_SIZE, b);
    OtherPool(mm.pools, PF_USER, s.frames, b);
    news := mm.PageTableAdd(vaddr, pagePhyaddr, b);
    AfterAdd(mm.pools, t, mm.State(), PF_USER, vaddr / PAGE_SIZE, b, news);
  }

  lemma TakenIsAddable(l: Pools, s: Vm, p: nat, b: nat)
    requires Sound(l, s) && UserPage(s, p) && s.uv[p - USER_PAGE] && Mapping(s, p) == None
    requires InPool(l, PF_USER, b) && !s.frames[b]
    ensures var t := s.(frames := s.frames[b := true]); Sound(l, t) && Fits(l, t) && Addable(l, t, p, b)
  {
    hide Lookup, SameContents, Tables, MoreTables;
    ClearUnused(l, s, b);
    Reserve(l, s, s.(frames := s.frames[b := true]));
  }

  /** What is at hand for copying page USER_PAGE + k. */
  lemma CopyReady(l: Pools, s0: Vm, s: Vm, f: nat, v: nat, k: nat, next: nat)
    requires Copying(l, s0, s, f, v, k) && k < |s0.uv| && s0.uv[k] && Enough(l, s, f, k, next)
    requires Mapping(s0, USER_PAGE + k).Some?
    ensures Sound(l, As(s, f)) && Fits(l, s) && UserPage(s, USER_PAGE + k) && s.uv == s0.uv && s.pd == s0.pd
    ensures USER_PAGE + k < 0xc_0000
    ensures Lookup(s.mem, s.pd, USER_PAGE + k) == Mapping(s0, USER_PAGE + k) && Mapping(As(s, f), USER_PAGE + k) == None
    ensures Mapping(s0, USER_PAGE + k).value < |s.mem|
    ensures CountClear(PoolOf(l, PF_USER, s.frames)) > 0
    ensures HasTable(s.mem, f, (USER_PAGE + k) / ENTRIES) || CountClear(PoolOf(l, PF_KERNEL, s.frames)) > 0
  {
    hide CountClear, PoolOf, Unshared, SameAsFirst;
    assert UserPage(s0, USER_PAGE + k);
  }

  lemma EnoughStep(l: Pools, s: Vm, t: Vm, f: nat, k: nat, next: nat, news: set<nat>)
    requires Enough(l, s, f, k, next) && k < |s.uv| && s.uv[k] && Fits(l, t) && t.uv == s.uv && f < |t.mem|
    requires USER_PAGE + k < 0xc_0000
    requires CountClear(PoolOf(l, PF_USER, t.frames)) == CountClear(PoolOf(l, PF_USER, s.frames)) - 1
    requires CountClear(PoolOf(l, PF_KERNEL, t.frames)) == CountClear(PoolOf(l, PF_KERNEL, s.frames)) - |news|
    requires if HasTable(s.mem, f, (USER_PAGE + k) / ENTRIES) then news == {} else |news| == 1
    requires HasTable(t.mem, f, (USER_PAGE + k) / ENTRIES)
    ensures Enough(l, t, f, k + 1, (USER_PAGE + k) / ENTRIES + 1)
  {
    hide CountClear, PoolOf, HasTable;
    var i := (USER_PAGE + k) / ENTRIES;
    if i < next {
      assert next == i + 1;
    }
  }

  lemma EnoughSkip(l: Pools, s: Vm, f: nat, n: nat, m: nat, next: nat)
    requires Enough(l, s, f, n, next) && n <= m <= |s.uv| && forall k :: n <= k < m ==> !s.uv[k]
    ensures Enough(l, s, f, m, next)
  {
    NeedsSkip(s.uv, n, m, next);
  }

  /** The body of copy_body_stack3's loops: one page, through a buffer, with two changes of the active directory */
  method CopyPage(mm: Manager, k: nat, f: nat, ghost s0: Vm, ghost v: nat, ghost next: nat) returns (ghost next': nat)
    requires mm.Shape() && Copying(mm.pools, s0, mm.State(), f, v, k) && k < |s0.uv| && s0.uv[k]
    requires Mapping(s0, USER_PAGE + k).Some? && Enough(mm.pools, mm.State(), f, k, next)
    modifies mm, mm.bits
    ensures mm.Shape() && Copying(mm.pools, s0, mm.State(), f, v, k + 1)
    ensures Enough(mm.pools, mm.State(), f, k + 1, next')
  {
    hide Copying, Enough, Mapping, Lookup, Sound, CountClear, PoolOf, BitsOf, Added, Via, Two, HasTable;
    ghost var s, p := mm.State(), USER_PAGE + k;
    CopyReady(mm.pools, s0, s, f, v, k, next);
    var progVaddr := k * PAGE_SIZE + USER_PAGE * PAGE_SIZE;
    assert progVaddr / PAGE_SIZE == p && progVaddr % PAGE_SIZE == 0;
    var buf := LoadPage(mm, progVaddr);
    var parent := mm.pd;
    mm.pd := f;
    assert mm.State() == As(s, f);
    ghost var b, news := GetAPage(mm, progVaddr);
    ghost var r := mm.State();
    MappedTo(mm.pools, As(s, f).(frames := s.frames[b := true]), r, p, b, news);
    StorePage(mm, progVaddr, buf);
    mm.pd := parent;
    ghost var t := mm.State();
    assert t == As(r.(mem := r.mem[FrameAt(mm.pools, b) := buf]), s.pd);
    assert CopyStep(mm.pools, s, r, t, f, p, b, news, buf);
    CopyingStep(mm.pools, s0, s, r, t, f, v, k, b, news, buf);
    next' := p / ENTRIES + 1;
    CopyKeepsTables(mm.pools, s0, s, r, t, f, v, k, b, news, buf);
    EnoughStep(mm.pools, s, t, f, k, next, news);
  }

  lemma MappedTo(l: Pools, s: Vm, r: Vm, p: nat, b: nat, news: set<nat>)
    requires Fits(l, s) && Added(l, s, r, p, b, news) && Sound(l, r) && b < PoolBits(l)
    ensures Lookup(r.mem, r.pd, p) == Some(FrameAt(l, b)) && FrameAt(l, b) < |r.mem|
  {
    hide Lookup, SameContents, Tables, MoreTables;
  }

  lemma CopyKeepsTables(l: Pools, s0: Vm, s: Vm, r: Vm, t: Vm, f: nat, v: nat, k: nat, b: nat, news: set<nat>, data: Frame)
    requires Copying(l, s0, s, f, v, k) && CopyStep(l, s, r, t, f, USER_PAGE + k, b, news, data)
    ensures f < |t.mem| && t.mem[f] == r.mem[f] && HasTable(t.mem, f, (USER_PAGE + k) / ENTRIES)
    ensures Fits(l, t) && t.uv == s.uv && t.frames == r.frames
  {
    hide Mapping, Lookup, SameContents, Tables, MoreTables, Directory, Sound;
    CopyIsAlien(l, s, r, t, f, v, USER_PAGE + k, b, news, data);
    ElsewhereFits(l, s, r, t, f, USER_PAGE + k, b, news, data);
    ViaChanges(l, As(s, f).(frames := s.frames[b := true]), r, USER_PAGE + k, b, news);
  }

  /** The eight addresses of one byte of the bitmap, which is not 0 */
  method CopyByte(mm: Manager, idxByte: nat, f: nat, ghost s0: Vm, ghost v: nat, ghost next: nat) returns (ghost next': nat)
    requires mm.Shape() && idxByte < mm.userVaddr.bits.Length && s0.uv == BitsOf(mm.userVaddr.bits[..])
    requires Copying(mm.pools, s0, mm.State(), f, v, 8 * idxByte) && Enough(mm.pools, mm.State(), f, 8 * idxByte, next)
    requires forall k :: 0 <= k < |s0.uv| && s0.uv[k] ==> Mapping(s0, USER_PAGE + k).Some?
    modifies mm, mm.bits
    ensures mm.Shape() && Copying(mm.pools, s0, mm.State(), f, v, 8 * idxByte + 8)
    ensures Enough(mm.pools, mm.State(), f, 8 * idxByte + 8, next')
  {
    hide Copying, Enough, Mapping, PutBit, BitOf;
    next' := next;
    var byte := mm.userVaddr.bits[idxByte];
    for idxBit := 0 to 8
      invariant mm.Shape() && Copying(mm.pools, s0, mm.State(), f, v, 8 * idxByte + idxBit)
      invariant Enough(mm.pools, mm.State(), f, 8 * idxByte + idxBit, next')
    {
      assert (8 * idxByte + idxBit) / 8 == idxByte && (8 * idxByte + idxBit) % 8 == idxBit;
      assert s0.uv[8 * idxByte + idxBit] == BitOf(byte, idxBit);
      if BitOf(byte, idxBit) {
        next' := CopyPage(mm, 8 * idxByte + idxBit, f, s0, v, next');
      } else {
        CopyingSkip(mm.pools, s0, mm.State(), f, v, 8 * idxByte + idxBit, 8 * idxByte + idxBit + 1);
        SameBitmap(mm.pools, s0, mm.State(), f, v, 8 * idxByte + idxBit);
        EnoughSkip(mm.pools, mm.State(), f, 8 * idxByte + idxBit, 8 * idxByte + idxBit + 1, next');
      }
    }
  }

  lemma SameBitmap(l: Pools, s0: Vm, s: Vm, f: nat, v: nat, n: nat)
    requires Copying(l, s0, s, f, v, n)
    ensures s.uv == s0.uv
  {
  }

  /** copy_body_stack3: every page recorded in the address bitmap is copied to the address space of directory f. */
  method CopyBody(mm: Manager, f: nat, ghost s0: Vm, ghost v: nat)
    requires mm.Shape() && s0 == mm.State() && Copying(mm.pools, s0, s0, f, v, 0) && Enough(mm.pools, s0, f, 0, 0)
    requires forall k :: 0 <= k < |s0.uv| && s0.uv[k] ==> Mapping(s0, USER_PAGE + k).Some?
    modifies mm, mm.bits
    ensures mm.Shape() && Copying(mm.pools, s0, mm.State(), f, v, |s0.uv|)
  {
    hide Copying, Enough, Mapping, BitOf, Remaining, TablesFrom;
    ghost var next := 0;
    for idxByte := 0 to mm.userVaddr.bytesLen
      invariant mm.Shape() && Copying(mm.pools, s0, mm.State(), f, v, 8 * idxByte)
      invariant Enough(mm.pools, mm.State(), f, 8 * idxByte, next)
    {
      if mm.userVaddr.bits[idxByte] != 0 {
        next := CopyByte(mm, idxByte, f, s0, v, next);
      } else {
        ZeroByte(mm.userVaddr.bits[..], idxByte);
        CopyingSkip(mm.pools, s0, mm.State(), f, v, 8 * idxByte, 8 * idxByte + 8);
        SameBitmap(mm.pools, s0, mm.State(), f, v, 8 * idxByte);
        EnoughSkip(mm.pools, mm.State(), f, 8 * idxByte, 8 * idxByte + 8, next);
      }
    }
  }

  lemma ZeroByte(bs: seq<byte>, i: nat)
    requires i < |bs| && bs[i] == 0
    ensures forall k :: 8 * i <= k < 8 * i + 8 ==> !BitsOf(bs)[k]
  {
    forall k | 8 * i <= k < 8 * i + 8
      ensures !BitsOf(bs)[k]
    {
      assert k / 8 == i;
      BitOfZero(k % 8);
    }
  }

  /** From s a kernel page v has been mapped to the frame of bit b, giving s1, and that frame, f, has been made a page
      directory that shares the kernel's half with the active one. */
  ghost predicate NewSpace(l: Pools, s: Vm, s1: Vm, t: Vm, f: nat, v: nat, b: nat) {
    && Fits(l, s) && Grown(l, s, s1, PF_KERNEL, v, 1, [b], {}) && f == FrameAt(l, b)
    && Two(l, t, f, v)
    && t == s1.(mem := t.mem) && |t.mem| == |s1.mem| && (forall g :: 0 <= g < |t.mem| && g != f ==> t.mem[g] == s1.mem[g])
    && (forall p: nat :: Mapping(t, p) == Mapping(s1, p))
    && (forall p: nat :: UserPage(t, p) ==> Mapping(As(t, f), p) == None)
  }

  /** get_kernel_pages and create_page_dir: a new directory in a fresh kernel page, whose frame addr_v2p tells */
  method CreatePageDir(mm: Manager) returns (f: nat, ghost v: nat, ghost b: nat, ghost s1: Vm)
    requires mm.Valid() && CountClear(PoolOf(mm.pools, PF_KERNEL, mm.State().frames)) > 0
    requires exists i: nat :: ClearRun(mm.State().kv, i, 1)
    modifies mm`mem, mm.bits, mm.userVaddr.bits
    ensures mm.Shape() && NewSpace(mm.pools, old(mm.State()), s1, mm.State(), f, v, b)
  {
    hide Mapping, Lookup, Sound, CountClear, PoolOf, BitsOf, Grown, Directory, Two;
    ghost var s0 := mm.State();
    SoundFits(mm.pools, s0);
    assert s0.V(PF_KERNEL) == s0.kv;
    var pageDirVaddr;
    ghost var taken, tables;
    pageDirVaddr, v, taken, tables := mm.MallocPage(PF_KERNEL, 1);
    s1 := mm.State();
    b := taken[0];
    DirectoryPage(mm.pools, s0, s1, v, taken, tables);
    f := FillDirectory(mm, pageDirVaddr, v, FrameAt(mm.pools, b));
    DirectoryMade(mm.pools, s1, f, v);
    assert mm.State() == s1.(mem := s1.mem[f := NewDirectory(s1.mem[s1.pd], f)]);
  }

  /** create_page_dir's writes to its page, through the page's address and the self-map */
  method FillDirectory(mm: Manager, pageDirVaddr: nat, ghost v: nat, ghost fr: nat) returns (f: nat)
    requires Directory(mm.mem, mm.pd) && fr < |mm.mem| && !IsTable(mm.mem, mm.pd, fr)
    requires v < SELF * ENTRIES && pageDirVaddr == v * PAGE_SIZE && Lookup(mm.mem, mm.pd, v) == Some(fr)
    modifies mm`mem
    ensures f == fr && mm.mem == old(mm.mem)[fr := NewDirectory(old(mm.mem)[mm.pd], fr)]
  {
    hide Lookup, Directory, NewDirectory;
    ghost var m := mm.mem;
    MemSize(m, mm.pd);
    assert m[fr := m[fr]] == m;
    PageWord(m, mm.pd, v, fr, m[fr], 0);
    mm.ZeroPage(pageDirVaddr);
    ghost var row: Frame := ZeroFrame();
    for i := 768 to 1024
      invariant mm.mem == m[fr := row]
      invariant forall k :: 0 <= k < ENTRIES ==> row[k] == if k < 768 || k >= i then 0 else m[mm.pd][k]
    {
      PageWord(m, mm.pd, v, fr, row, i);
      var entry := mm.Load(0xffff_f000 + i * 4);
      mm.Put(pageDirVaddr + i * 4, entry);
      row := row[i := entry];
    }
    PageWord(m, mm.pd, v, fr, row, 1023);
    var phyAddr := mm.AddrV2P(pageDirVaddr);
    mm.Put(pageDirVaddr + 1023 * 4, phyAddr + FLAGS);
    assert mm.mem[fr] == NewDirectory(m[mm.pd], fr);
    f := phyAddr / PAGE_SIZE;
  }

  lemma MemSize(mem: seq<Frame>, pd: nat)
    requires Directory(mem, pd)
    ensures pd < |mem| <= 0x10_0000
  {
  }

  /** The page that malloc_page gives for a directory. */
  lemma DirectoryPage(l: Pools, s: Vm, t: Vm, v: nat, taken: seq<nat>, tables: set<nat>)
    requires Sound(l, s) && Sound(l, t) && Grown(l, s, t, PF_KERNEL, v, 1, taken, tables) && |taken| == 1
    ensures var f := FrameAt(l, taken[0]);
            && f < |t.mem| && !IsTable(t.mem, t.pd, f) && PfOf(v) == PF_KERNEL && Mapping(t, v) == Some(f)
            && v < SELF * ENTRIES && Lookup(t.mem, t.pd, v) == Some(f) && taken == [taken[0]] && tables == {}
    ensures Fits(l, t) && Directory(t.mem, t.pd)
  {
    hide Lookup, SameContents, Tables, MoreTables;
    assert Mapping(t, v + 0) == Some(FrameAt(l, taken[0]));
    assert taken[0] in taken && !s.frames[taken[0]];
    assert IsTable(s.mem, s.pd, s.pd);
    assert PageSound(l, t, v);
  }

  /** While frame f, mapped at page v, is being written, the words of that page and of the active directory are where they
      were. */
  lemma PageWord(mem: seq<Frame>, pd: nat, v: nat, f: nat, row: Frame, i: nat)
    requires Directory(mem, pd) && f < |mem| && !IsTable(mem, pd, f) && i < ENTRIES
    requires v < SELF * ENTRIES && Lookup(mem, pd, v) == Some(f)
    ensures var m := mem[f := row];
            && Directory(m, pd) && m[pd] == mem[pd] && Lookup(m, pd, v) == Some(f)
            && Translate(m, pd, 0xffff_f000 + i * 4) == Some((pd, i))
            && Translate(m, pd, v * PAGE_SIZE + i * 4) == Some((f, i))
  {
    var m := mem[f := row];
    assert IsTable(mem, pd, pd);
    StoreData(mem, pd, f, row);
    var vaddr: u32 := i * 0x40_0000;
    assert PdeIdx(vaddr) == i && PdePtr(vaddr) == 0xffff_f000 + i * 4;
    SelfMap(m, pd, vaddr);
    var at := v * PAGE_SIZE + i * 4;
    assert at / PAGE_SIZE == v && at % PAGE_SIZE == i * 4;
  }

  // --- copy_process ---

  /** The address space of directory f is a copy of the active one as it was in state s: exactly the user pages recorded in
      the address bitmap, with the same contents, in frames of its own; the kernel's half is shared; and the active address
      space is unchanged, but that the kernel has the new directory in page v of its heap. */
  ghost predicate Forked(l: Pools, s: Vm, t: Vm, f: nat, v: nat) {
    && Sound(l, t) && f < |t.mem| && Sound(l, As(t, f)) && t.pd == s.pd < |t.mem| && t.uv == s.uv
    && (forall q: nat :: q != v ==> Mapping(t, q) == Mapping(s, q))
    && (forall q: nat :: UserPage(s, q) && Mapping(s, q).Some? ==>
          && Mapping(s, q).value < |s.mem| && Mapping(s, q).value < |t.mem|
          && t.mem[Mapping(s, q).value] == s.mem[Mapping(s, q).value])
    && (forall p: nat :: UserPage(s, p) ==>
          if s.uv[p - USER_PAGE] then SameAsFirst(s, t, f, p) else Mapping(As(t, f), p) == None)
    && (forall p: nat, q: nat :: UserPage(s, p) && UserPage(s, q) && Mapping(As(t, f), p).Some? ==>
          Mapping(As(t, f), p) != Mapping(t, q))
    && (forall i :: 768 <= i < SELF ==> t.mem[f][i] == t.mem[t.pd][i])
    && t.mem[f][SELF] == Entry(f)
  }

  /** Before the first page is copied. */
  lemma CopyingFirst(l: Pools, s: Vm, s1: Vm, t: Vm, f: nat, v: nat, b: nat)
    requires Sound(l, s) && NewSpace(l, s, s1, t, f, v, b)
    requires forall p: nat :: UserPage(s, p) ==> Mapping(s, p) != Some(s.pd)
    ensures Copying(l, t, t, f, v, 0) && t.uv == s.uv && t.pd == s.pd && |t.mem| == |s.mem|
    ensures forall q: nat :: q != v ==> Mapping(t, q) == Mapping(s, q)
    ensures forall q: nat :: UserPage(s, q) && Mapping(s, q).Some? ==>
              Mapping(s, q).value < |s.mem| && t.mem[Mapping(s, q).value] == s.mem[Mapping(s, q).value]
  {
    hide Lookup, Mapping, Directory;
    assert PfOf(v) == PF_KERNEL by {
      hide Grown, Sound;
    }
    forall q: nat | UserPage(s, q) && Mapping(s, q).Some?
      ensures Mapping(s, q).value < |s.mem| && t.mem[Mapping(s, q).value] == s.mem[Mapping(s, q).value]
    {
      assert PfOf(q) == PF_USER && q != v;
      assert PageSound(l, s, q);
      assert Mapping(s1, q) == Mapping(s, q) && Mapping(s, q).value != f;
    }
    forall q: nat | UserPage(t, q) && Mapping(t, q).Some?
      ensures Mapping(t, q).value < |t.mem|
    {
      assert PageSound(l, t, q);
    }
  }

  lemma OneFrameLess(l: Pools, s: Vm, t: Vm, v: nat, b: nat)
    requires Fits(l, s) && Grown(l, s, t, PF_KERNEL, v, 1, [b], {})
    ensures CountClear(PoolOf(l, PF_KERNEL, t.frames)) == CountClear(PoolOf(l, PF_KERNEL, s.frames)) - 1
    ensures PoolOf(l, PF_USER, t.frames) == PoolOf(l, PF_USER, s.frames)
  {
    hide Mapping, SameContents, Tables, MoreTables;
    assert b in [b];
    assert forall c :: c in [b] <==> c == b;
    CountClearUpdate(PoolOf(l, PF_KERNEL, s.frames), b, true);
    assert PoolOf(l, PF_KERNEL, t.frames) == PoolOf(l, PF_KERNEL, s.frames)[b := true];
  }

  lemma ForkedAtLast(l: Pools, s: Vm, t1: Vm, t: Vm, f: nat, v: nat)
    requires Copying(l, t1, t, f, v, |t1.uv|) && t1.uv == s.uv && t1.pd == s.pd && |t1.mem| == |s.mem|
    requires PfOf(v) == PF_KERNEL && Fits(l, s)
    requires forall q: nat :: q != v ==> Mapping(t1, q) == Mapping(s, q)
    requires forall q: nat :: UserPage(s, q) && Mapping(s, q).Some? ==>
               Mapping(s, q).value < |s.mem| && t1.mem[Mapping(s, q).value] == s.mem[Mapping(s, q).value]
    ensures Forked(l, s, t, f, v)
  {
    hide Lookup, Mapping;
    SoundFits(l, As(t, f));
    assert forall q: nat :: UserPage(s, q) ==> q != v;
    forall p: nat, q: nat | UserPage(s, p) && UserPage(s, q) && Mapping(As(t, f), p).Some?
      ensures Mapping(As(t, f), p) != Mapping(t, q)
    {
      assert UserPage(As(t, f), p) && UserPage(t, q);
      assert Mine(As(t, f), Mapping(As(t, f), p).value);
    }
  }

  /** copy_process, as far as the address space goes */
  method CopyProcess(mm: Manager) returns (f: nat, ghost v: nat)
    requires mm.Valid()
    requires forall k :: 0 <= k < |mm.State().uv| && mm.State().uv[k] ==> Mapping(mm.State(), USER_PAGE + k).Some?
    requires forall p: nat :: UserPage(mm.State(), p) ==> Mapping(mm.State(), p) != Some(mm.pd)
    requires CountClear(PoolOf(mm.pools, PF_USER, mm.State().frames)) >= Remaining(mm.State().uv, 0)
    requires CountClear(PoolOf(mm.pools, PF_KERNEL, mm.State().frames)) >= 1 + TablesFrom(mm.State().uv, 0, 0)
    requires exists i: nat :: ClearRun(mm.State().kv, i, 1)
    modifies mm, mm.bits, mm.userVaddr.bits
    ensures mm.Valid() && Forked(mm.pools, old(mm.State()), mm.State(), f, v)
    ensures AllOpen(mm.State()) && AllOpen(As(mm.State(), f))
  {
    hide AllOpen, Mapping, Lookup, CountClear, PoolOf, BitsOf, Sound, NewSpace, Copying, Enough, Forked, ClearRun, Remaining, TablesFrom;
    ghost var s := mm.State();
    SoundFits(mm.pools, s);
    ghost var b, s1;
    f, v, b, s1 := CreatePageDir(mm);
    ghost var t1 := mm.State();
    CopyingFirst(mm.pools, s, s1, t1, f, v, b);
    SpaceHas(mm.pools, s, s1, t1, f, v, b);
    OneFrameLess(mm.pools, s, s1, v, b);
    EnoughFirst(mm.pools, t1, f);
    CopyBody(mm, f, t1, v);
    ForkedAtLast(mm.pools, s, t1, mm.State(), f, v);
    ForkedSound(mm.pools, s, mm.State(), f, v);
    MappedIsOpen(mm.pools, mm.State());
    MappedIsOpen(mm.pools, As(mm.State(), f));
  }

  lemma SpaceHas(l: Pools, s: Vm, s1: Vm, t: Vm, f: nat, v: nat, b: nat)
    requires NewSpace(l, s, s1, t, f, v, b)
    ensures Fits(l, s) && Grown(l, s, s1, PF_KERNEL, v, 1, [b], {}) && PfOf(v) == PF_KERNEL && t.frames == s1.frames
    ensures Fits(l, t) && f < |t.mem|
  {
    hide Mapping, Grown;
  }

  lemma EnoughFirst(l: Pools, s: Vm, f: nat)
    requires Fits(l, s) && f < |s.mem|
    requires CountClear(PoolOf(l, PF_USER, s.frames)) >= Remaining(s.uv, 0)
    requires CountClear(PoolOf(l, PF_KERNEL, s.frames)) >= TablesFrom(s.uv, 0, 0)
    ensures Enough(l, s, f, 0, 0)
  {
  }

  lemma ForkedSound(l: Pools, s: Vm, t: Vm, f: nat, v: nat)
    requires Forked(l, s, t, f, v)
    ensures Sound(l, t) && Sound(l, As(t, f))
  {
  }
}
