/** The call-site evidence merge (examples/httpd_decompile.rs:3016-3027, 3163-3284), specified by the sets
    of spellings the sites offer, so that the order in which the loop meets them cannot matter; the
    loop is then proved against that. */
module EvidenceMerge {
  import opened Common

  /** One harvested call site; `slots` is None for a site that offers no slot evidence at all. */
  datatype Site = Site(arity: nat, slots: Option<seq<Option<string>>>, ret: Option<string>)

  datatype Proto = Proto(name: string, params: seq<Option<string>>, ret: Option<string>, inputLock: bool)

  /** `StickyDeadEvidence`. */
  datatype Dead = Dead(arity: set<nat>, slots: map<nat, set<nat>>, ret: set<nat>, veto: set<nat>)

  const NO_DEAD := Dead({}, map[], {}, {})

  /** What the memory says about one callee. */
  datatype EntryDead = EntryDead(arity: bool, slots: Option<set<nat>>, ret: bool, veto: bool) {
    function Slots(): set<nat> { if slots.Some? then slots.value else {} }
  }

  const BLANK := EntryDead(false, None, false, false)

  ghost function At(d: Dead, e: nat): EntryDead {
    EntryDead(e in d.arity, if e in d.slots then Some(d.slots[e]) else None, e in d.ret, e in d.veto)
  }

  /** The memory is determined by what it says about each callee. */
  lemma DeadExtensional(a: Dead, b: Dead)
    requires forall e: nat :: At(a, e) == At(b, e)
    ensures a == b
  {
    forall e: nat ensures (e in a.arity <==> e in b.arity) && (e in a.ret <==> e in b.ret) && (e in a.veto <==> e in b.veto)
      ensures (e in a.slots <==> e in b.slots) && (e in a.slots ==> a.slots[e] == b.slots[e])
    {
      assert At(a, e) == At(b, e);
    }
    assert a.slots == b.slots;
  }

  ghost predicate WellFormed(sites: seq<Site>) {
    forall s | s in sites :: s.slots.Some? ==> |s.slots.value| == s.arity
  }

  // ---------- The specification ----------

  ghost predicate AnyPositive(sites: seq<Site>) {
    exists s :: s in sites && s.slots.Some? && s.arity > 0
  }

  function Positive(sites: seq<Site>): (r: seq<Site>)
    ensures forall s :: s in r <==> s in sites && s.arity > 0
  {
    if sites == [] then [] else (if sites[0].arity > 0 then [sites[0]] else []) + Positive(sites[1..])
  }

  /** Zero-arity sites are artifacts once some site has arguments. */
  ghost function Considered(sites: seq<Site>): (r: seq<Site>)
    ensures WellFormed(sites) ==> WellFormed(r)
  {
    if AnyPositive(sites) then Positive(sites) else sites
  }

  predicate Silent(s: Site) {
    s.ret.None? && s.slots.Some? && forall i | 0 <= i < |s.slots.value| :: s.slots.value[i].None?
  }

  predicate Offers(s: Site, i: nat, spelling: string) {
    s.slots.Some? && i < |s.slots.value| && s.slots.value[i] == Some(spelling)
  }

  ghost function SpellingsAt(sites: seq<Site>, i: nat): set<string> {
    set s | s in sites && s.slots.Some? && i < |s.slots.value| && s.slots.value[i].Some? :: s.slots.value[i].value
  }

  ghost function Returns(sites: seq<Site>): set<string> {
    set s | s in sites && s.ret.Some? :: s.ret.value
  }

  ghost function Arities(sites: seq<Site>): set<nat> {
    set s | s in sites && s.slots.Some? :: s.arity
  }

  ghost predicate Conflict<T(!new)>(s: set<T>) {
    exists x, y :: x in s && y in s && x != y
  }

  ghost predicate IsSole<T>(s: set<T>, x: T) {
    s == {x}
  }

  ghost function Sole<T(!new)>(s: set<T>): (o: Option<T>)
    ensures o.Some? ==> s == {o.value}
    ensures o.None? ==> s == {} || Conflict(s)
  {
    if x :| IsSole(s, x) then Some(x)
    else
      assert s != {} ==> Conflict(s) by {
        if s != {} {
          var x :| x in s;
          assert !IsSole(s, x);
          var y :| y in s && y != x;
        }
      }
      None
  }

  /** Slots that must not be locked: conflicting now, or dead from before. */
  ghost function Killed(sites: seq<Site>, arity: nat, sticky: set<nat>): set<nat> {
    set i | 0 <= i < arity && (i in sticky || Conflict(SpellingsAt(sites, i)))
  }

  ghost function Params(sites: seq<Site>, arity: nat, killed: set<nat>): seq<Option<string>> {
    seq(arity, i requires 0 <= i < arity => if i in killed then None else Sole(SpellingsAt(sites, i)))
  }

  ghost predicate FullyEvidenced(params: seq<Option<string>>) {
    |params| > 0 && forall i | 0 <= i < |params| :: params[i].Some?
  }

  ghost function Ret(sites: seq<Site>, dead: bool): Option<string> {
    if Conflict(Returns(sites)) || dead then None else Sole(Returns(sites))
  }

  ghost function Blanks(arity: nat): seq<Option<string>> {
    seq(arity, _ => None)
  }

  ghost function Verdict(name: string, params: seq<Option<string>>, ret: Option<string>): Option<Proto> {
    if !FullyEvidenced(params) && ret.None? then None
    else Some(Proto(name, if FullyEvidenced(params) then params else Blanks(|params|), ret, FullyEvidenced(params)))
  }

  /** One callee's merge, given what the memory says about that callee. */
  ghost function MergedAt(name: string, all: seq<Site>, d: EntryDead): (Option<Proto>, EntryDead) {
    MergedOf(name, Considered(all), d)
  }

  ghost function MergedOf(name: string, sites: seq<Site>, d: EntryDead): (Option<Proto>, EntryDead) {
    if d.arity || d.veto then (None, d)
    else if |sites| > 1 && (exists s :: s in sites && Silent(s)) then (None, d.(veto := true))
    else if Conflict(Arities(sites)) then (None, d.(arity := true))
    else if Sole(Arities(sites)).None? then (None, d)
    else AgreedAt(name, sites, Sole(Arities(sites)).value, d)
  }

  /** The merge once the sites agree on an arity. */
  ghost function AgreedAt(name: string, sites: seq<Site>, arity: nat, d: EntryDead): (Option<Proto>, EntryDead) {
    var killed := Killed(sites, arity, d.Slots());
    var params := Params(sites, arity, killed);
    (Verdict(name, params, Ret(sites, d.ret)),
     d.(slots := Some(d.Slots() + killed), ret := d.ret || Conflict(Returns(sites))))
  }

  // ---------- The loop ----------

  /** One accumulator of the merge loops: the first spelling seen, and whether another differed. */
  datatype Cell = Cell(first: Option<string>, conflicted: bool)

  function Absorb(c: Cell, o: Option<string>): Cell {
    if o.None? || c.conflicted then c
    else if c.first.None? then c.(first := o)
    else if c.first != o then c.(conflicted := true)
    else c
  }

  ghost predicate Summarises(c: Cell, s: set<string>) {
    (c.conflicted <==> Conflict(s)) && (!c.conflicted ==> c.first == Sole(s))
  }

  ghost function OptSet(o: Option<string>): set<string> {
    if o.Some? then {o.value} else {}
  }

  lemma SoleOf<T(!new)>(x: T)
    ensures Sole({x}) == Some(x) && !Conflict({x})
  {
    assert IsSole({x}, x);
    if x' :| IsSole({x}, x') { assert x in {x'}; }
  }

  lemma NotConflict<T(!new)>(s: set<T>)
    requires !Conflict(s)
    ensures (s == {} && Sole(s).None?) || exists x :: s == {x} && Sole(s) == Some(x)
  {
    if s != {} {
      var x :| x in s;
      assert s == {x};
      SoleOf(x);
    }
  }

  lemma AbsorbSummarises(c: Cell, s: set<string>, o: Option<string>)
    requires Summarises(c, s)
    ensures Summarises(Absorb(c, o), s + OptSet(o))
  {
    var t := s + OptSet(o);
    if o.None? {
      assert t == s;
    } else if c.conflicted {
      var x, y :| x in s && y in s && x != y;
      assert x in t && y in t;
    } else {
      NotConflict(s);
      if s == {} {
        assert t == {o.value};
        SoleOf(o.value);
      } else {
        var x :| s == {x};
        if x == o.value {
          assert t == s;
        } else {
          assert x in t && o.value in t;
        }
      }
    }
  }

  lemma SnocSpellings(sites: seq<Site>, s: Site, i: nat)
    ensures SpellingsAt(sites + [s], i) == SpellingsAt(sites, i) + OptSet(if s.slots.Some? && i < |s.slots.value| then s.slots.value[i] else None)
    ensures Returns(sites + [s]) == Returns(sites) + OptSet(s.ret)
  {
    var t := sites + [s];
    forall x | x in SpellingsAt(sites, i) ensures x in SpellingsAt(t, i) {
      var w :| w in sites && w.slots.Some? && i < |w.slots.value| && w.slots.value[i].Some? && w.slots.value[i].value == x;
      assert w in t;
    }
    forall x | x in Returns(sites) ensures x in Returns(t) {
      var w :| w in sites && w.ret.Some? && w.ret.value == x;
      assert w in t;
    }
    assert s in t;
  }

  method ConsiderSites(all: seq<Site>) returns (sites: seq<Site>)
    ensures sites == Considered(all)
  {
    var positive := false;
    for n := 0 to |all|
      invariant positive <==> exists s :: s in all[..n] && s.slots.Some? && s.arity > 0
    {
      if all[n].slots.Some? && all[n].arity > 0 {
        positive := true;
        assert all[n] in all[..n + 1];
      }
      assert all[..n + 1] == all[..n] + [all[n]];
    }
    assert all[..|all|] == all;
    sites := if positive then Positive(all) else all;
  }

  method AnySilent(sites: seq<Site>) returns (found: bool)
    ensures found <==> exists s :: s in sites && Silent(s)
  {
    for n := 0 to |sites|
      invariant forall s | s in sites[..n] :: !Silent(s)
    {
      if Silent(sites[n]) { return true; }
      assert sites[..n + 1] == sites[..n] + [sites[n]];
    }
    assert sites[..|sites|] == sites;
    found := false;
  }

  /** The arity consensus loop; `conflict` is its early return. */
  method AgreeArity(sites: seq<Site>) returns (arity: Option<nat>, conflict: bool)
    ensures conflict <==> Conflict(Arities(sites))
    ensures !conflict ==> arity == Sole(Arities(sites))
  {
    arity := None;
    for n := 0 to |sites|
      invariant Arities(sites[..n]) == if arity.Some? then {arity.value} else {}
    {
      assert sites[..n + 1] == sites[..n] + [sites[n]];
      assert Arities(sites[..n + 1]) == Arities(sites[..n]) + if sites[n].slots.Some? then {sites[n].arity} else {} by {
        ArityParts(sites[..n], sites[n]);
      }
      if sites[n].slots.None? { continue; }
      if arity.None? {
        arity := Some(sites[n].arity);
      } else if arity.value != sites[n].arity {
        assert arity.value in Arities(sites[..n + 1]) && sites[n].arity in Arities(sites[..n + 1]);
        ArityPrefix(sites, n + 1);
        assert arity.value in Arities(sites) && sites[n].arity in Arities(sites);
        return arity, true;
      }
    }
    assert sites[..|sites|] == sites;
    conflict := false;
    if arity.Some? { SoleOf(arity.value); } else { assert Sole(Arities(sites)).None?; }
  }

  lemma ArityParts(sites: seq<Site>, s: Site)
    ensures Arities(sites + [s]) == Arities(sites) + if s.slots.Some? then {s.arity} else {}
  {
    forall a | a in Arities(sites) ensures a in Arities(sites + [s]) {
      var w :| w in sites && w.slots.Some? && w.arity == a;
      assert w in sites + [s];
    }
    assert s in sites + [s];
  }

  lemma ArityPrefix(sites: seq<Site>, n: nat)
    requires n <= |sites|
    ensures Arities(sites[..n]) <= Arities(sites)
  {
    forall a | a in Arities(sites[..n]) ensures a in Arities(sites) {
      var w :| w in sites[..n] && w.slots.Some? && w.arity == a;
      assert w in sites;
    }
  }

  /** The per-slot accumulation over one site. */
  method AbsorbSite(cells: seq<Cell>, site: Site) returns (out: seq<Cell>)
    requires site.slots.Some? ==> |site.slots.value| == |cells|
    ensures |out| == |cells|
    ensures forall i | 0 <= i < |cells| :: out[i] == Absorb(cells[i], if site.slots.Some? then site.slots.value[i] else None)
  {
    out := cells;
    if site.slots.None? { return; }
    for i := 0 to |cells|
      invariant |out| == |cells|
      invariant forall j | 0 <= j < |cells| :: out[j] == if j < i then Absorb(cells[j], site.slots.value[j]) else cells[j]
    {
      out := out[i := Absorb(out[i], site.slots.value[i])];
    }
  }

  method MergeSlots(sites: seq<Site>, arity: nat) returns (cells: seq<Cell>)
    requires forall s | s in sites :: s.slots.Some? ==> |s.slots.value| == arity
    ensures |cells| == arity && forall i | 0 <= i < arity :: Summarises(cells[i], SpellingsAt(sites, i))
  {
    cells := seq(arity, _ => Cell(None, false));
    for n := 0 to |sites|
      invariant |cells| == arity
      invariant forall i | 0 <= i < arity :: Summarises(cells[i], SpellingsAt(sites[..n], i))
    {
      assert sites[n] in sites;
      var next := AbsorbSite(cells, sites[n]);
      forall i | 0 <= i < arity ensures Summarises(next[i], SpellingsAt(sites[..n + 1], i)) {
        assert sites[..n + 1] == sites[..n] + [sites[n]];
        SnocSpellings(sites[..n], sites[n], i);
        AbsorbSummarises(cells[i], SpellingsAt(sites[..n], i), if sites[n].slots.Some? then sites[n].slots.value[i] else None);
      }
      cells := next;
    }
    assert sites[..|sites|] == sites;
  }

  method MergeReturns(sites: seq<Site>) returns (cell: Cell)
    ensures Summarises(cell, Returns(sites))
  {
    cell := Cell(None, false);
    for n := 0 to |sites|
      invariant Summarises(cell, Returns(sites[..n]))
    {
      assert sites[..n + 1] == sites[..n] + [sites[n]];
      SnocSpellings(sites[..n], sites[n], 0);
      AbsorbSummarises(cell, Returns(sites[..n]), sites[n].ret);
      cell := Absorb(cell, sites[n].ret);
    }
    assert sites[..|sites|] == sites;
  }

  /** Merge the sticky memory into the slots: a killed slot loses its spelling and stays dead. */
  method KillSlots(cells: seq<Cell>, sticky: set<nat>) returns (slots: seq<Option<string>>, sticky': set<nat>)
    ensures |slots| == |cells|
    ensures forall i | 0 <= i < |cells| :: slots[i] == if i in sticky || cells[i].conflicted then None else cells[i].first
    ensures sticky' == sticky + set i | 0 <= i < |cells| && (i in sticky || cells[i].conflicted)
  {
    slots, sticky' := [], sticky;
    for i := 0 to |cells|
      invariant |slots| == i
      invariant forall j | 0 <= j < i :: slots[j] == if j in sticky || cells[j].conflicted then None else cells[j].first
      invariant sticky' == sticky + set j | 0 <= j < i && (j in sticky || cells[j].conflicted)
    {
      if i in sticky' || cells[i].conflicted {
        sticky' := sticky' + {i};
        slots := slots + [None];
      } else {
        slots := slots + [cells[i].first];
      }
    }
  }

  method AllSome(slots: seq<Option<string>>) returns (all: bool)
    ensures all <==> forall i | 0 <= i < |slots| :: slots[i].Some?
  {
    for i := 0 to |slots|
      invariant forall j | 0 <= j < i :: slots[j].Some?
    {
      if slots[i].None? { return false; }
    }
    all := true;
  }

  lemma AritiesAgree(sites: seq<Site>, arity: nat)
    requires WellFormed(sites) && Arities(sites) == {arity}
    ensures forall s | s in sites :: s.slots.Some? ==> |s.slots.value| == arity
  {
    forall s | s in sites && s.slots.Some? ensures |s.slots.value| == arity {
      assert s.arity in Arities(sites);
    }
  }

  /** The slots left after the sticky memory, and the slots dead from now on. */
  method LockSlots(sites: seq<Site>, arity: nat, sticky: set<nat>) returns (slots: seq<Option<string>>, sticky': set<nat>)
    requires forall s | s in sites :: s.slots.Some? ==> |s.slots.value| == arity
    ensures slots == Params(sites, arity, Killed(sites, arity, sticky))
    ensures sticky' == sticky + Killed(sites, arity, sticky)
  {
    var cells := MergeSlots(sites, arity);
    slots, sticky' := KillSlots(cells, sticky);
    ghost var killed := Killed(sites, arity, sticky);
    assert killed == set i | 0 <= i < |cells| && (i in sticky || cells[i].conflicted);
  }

  /** Slots, return and lock decision, given the agreed arity. */
  method LockForms(entry: nat, name: string, sites: seq<Site>, arity: nat, dead: Dead) returns (proto: Option<Proto>, dead': Dead)
    requires forall s | s in sites :: s.slots.Some? ==> |s.slots.value| == arity
    ensures (proto, At(dead', entry)) == AgreedAt(name, sites, arity, At(dead, entry))
    ensures forall e: nat | e != entry :: At(dead', e) == At(dead, e)
  {
    var sticky := if entry in dead.slots then dead.slots[entry] else {};
    assert sticky == At(dead, entry).Slots();
    var slots, sticky' := LockSlots(sites, arity, sticky);
    var cell := MergeReturns(sites);
    dead' := dead.(slots := dead.slots[entry := sticky']);
    var ret := if cell.conflicted || entry in dead.ret then None else cell.first;
    assert ret == Ret(sites, entry in dead.ret);
    if cell.conflicted { dead' := dead'.(ret := dead'.ret + {entry}); }
    var evidenced := AllSome(slots);
    var inputLock := arity > 0 && evidenced;
    assert inputLock <==> FullyEvidenced(slots);
    if !inputLock && ret.None? { return None, dead'; }
    proto := Some(Proto(name, if inputLock then slots else seq(arity, _ => None), ret, inputLock));
  }

  /** `merge_callsite_evidence`: the loop computes the set-based merge for its own callee and
      leaves the memory of every other callee alone. */
  method MergeCallsiteEvidence(entry: nat, name: string, all: seq<Site>, dead: Dead) returns (proto: Option<Proto>, dead': Dead)
    requires WellFormed(all)
    ensures (proto, At(dead', entry)) == MergedAt(name, all, At(dead, entry))
    ensures forall e: nat | e != entry :: At(dead', e) == At(dead, e)
  {
    if entry in dead.arity { return None, dead; }
    var sites := ConsiderSites(all);
    if entry in dead.veto { return None, dead; }
    var silent := AnySilent(sites);
    if |sites| > 1 && silent {
      return None, dead.(veto := dead.veto + {entry});
    }
    var consensus, conflict := AgreeArity(sites);
    if conflict { return None, dead.(arity := dead.arity + {entry}); }
    if consensus.None? { return None, dead; }
    AritiesAgree(sites, consensus.value);
    proto, dead' := LockForms(entry, name, sites, consensus.value, dead);
  }

  // ---------- Order does not matter ----------

  lemma {:induction false} PositiveCount(sites: seq<Site>, s: Site)
    ensures multiset(Positive(sites))[s] == if s.arity > 0 then multiset(sites)[s] else 0
    decreases |sites|
  {
    if sites != [] {
      PositiveCount(sites[1..], s);
      assert sites == [sites[0]] + sites[1..];
    }
  }

  lemma SameConsidered(a: seq<Site>, b: seq<Site>)
    requires multiset(a) == multiset(b)
    ensures multiset(Considered(a)) == multiset(Considered(b))
  {
    assert forall s :: s in a <==> s in multiset(a);
    assert forall s :: s in b <==> s in multiset(b);
    assert AnyPositive(a) <==> AnyPositive(b);
    forall s ensures multiset(Positive(a))[s] == multiset(Positive(b))[s] { PositiveCount(a, s); PositiveCount(b, s); }
    assert multiset(Positive(a)) == multiset(Positive(b));
  }

  /** Permuting the sites changes neither the result nor the memory. */
  lemma OrderIndependent(name: string, all: seq<Site>, all': seq<Site>, d: EntryDead)
    requires multiset(all) == multiset(all')
    ensures MergedAt(name, all, d) == MergedAt(name, all', d)
  {
    var a, b := Considered(all), Considered(all');
    SameConsidered(all, all');
    SameSites(a, b);
    if Sole(Arities(a)).Some? { SameAgreed(name, a, b, Sole(Arities(a)).value, d); }
  }

  lemma SameSites(a: seq<Site>, b: seq<Site>)
    requires multiset(a) == multiset(b)
    ensures |a| == |b| && forall s :: s in a <==> s in b
    ensures Arities(a) == Arities(b) && Returns(a) == Returns(b)
    ensures forall i: nat :: SpellingsAt(a, i) == SpellingsAt(b, i)
  {
    assert |multiset(a)| == |a| && |multiset(b)| == |b|;
    assert forall s :: s in a <==> s in multiset(a);
    assert forall s :: s in b <==> s in multiset(b);
  }

  lemma SameAgreed(name: string, a: seq<Site>, b: seq<Site>, arity: nat, d: EntryDead)
    requires Returns(a) == Returns(b) && forall i: nat :: SpellingsAt(a, i) == SpellingsAt(b, i)
    ensures AgreedAt(name, a, arity, d) == AgreedAt(name, b, arity, d)
  {
    var killed := Killed(a, arity, d.Slots());
    assert killed == Killed(b, arity, d.Slots());
    assert Params(a, arity, killed) == Params(b, arity, killed);
  }

  // ---------- Idempotence, stickiness, soundness ----------

  /** Merging the same sites again under the updated memory gives the same entry and the same memory. */
  lemma MergeIdempotent(name: string, all: seq<Site>, d: EntryDead)
    ensures var (proto, d') := MergedAt(name, all, d); MergedAt(name, all, d') == (proto, d')
  {
    var sites := Considered(all);
    var (proto, d') := MergedAt(name, all, d);
    if d'.slots.Some? && Sole(Arities(sites)).Some? {
      var arity := Sole(Arities(sites)).value;
      assert Killed(sites, arity, d.Slots() + Killed(sites, arity, d.Slots())) == Killed(sites, arity, d.Slots());
      assert d.Slots() + Killed(sites, arity, d.Slots()) + Killed(sites, arity, d.Slots()) == d.Slots() + Killed(sites, arity, d.Slots());
    }
  }

  ghost predicate DeadLe(a: EntryDead, b: EntryDead) {
    (a.arity ==> b.arity) && (a.veto ==> b.veto) && (a.ret ==> b.ret) && a.Slots() <= b.Slots()
  }

  /** Nothing the memory calls dead is locked by the entry. */
  ghost predicate Respects(p: Option<Proto>, d: EntryDead) {
    p.Some? ==>
      && !d.arity && !d.veto
      && (p.value.ret.Some? ==> !d.ret)
      && (p.value.inputLock ==> forall i | 0 <= i < |p.value.params| :: i !in d.Slots())
  }

  lemma MergeSticky(name: string, all: seq<Site>, d: EntryDead)
    ensures var (proto, d') := MergedAt(name, all, d); DeadLe(d, d') && Respects(proto, d') && Respects(proto, d)
  {
    var sites := Considered(all);
    if Sole(Arities(sites)).Some? {
      var arity := Sole(Arities(sites)).value;
      var params := Params(sites, arity, Killed(sites, arity, d.Slots()));
      assert forall i | 0 <= i < arity :: params[i].Some? ==> i !in d.Slots() && i !in Killed(sites, arity, d.Slots());
    }
  }

  /** What a lock means: one arity for all considered sites that offer slots; in every locked
      slot each offer agrees and somebody offers; a locked return is every consumer's type. */
  lemma MergeSound(name: string, all: seq<Site>, d: EntryDead)
    requires WellFormed(all) && MergedAt(name, all, d).0.Some?
    ensures var p, sites := MergedAt(name, all, d).0.value, Considered(all);
      && (forall s | s in sites && s.slots.Some? :: s.arity == |p.params|)
      && (p.inputLock ==> |p.params| > 0 && forall i | 0 <= i < |p.params| ::
            && p.params[i].Some?
            && (exists s :: s in sites && Offers(s, i, p.params[i].value))
            && (forall s, x | s in sites && Offers(s, i, x) :: x == p.params[i].value))
      && (p.ret.Some? ==>
            && (exists s :: s in sites && s.ret == p.ret)
            && (forall s | s in sites && s.ret.Some? :: s.ret == p.ret))
  {
    var p, sites := MergedAt(name, all, d).0.value, Considered(all);
    var arity := Sole(Arities(sites)).value;
    forall s | s in sites && s.slots.Some? ensures s.arity == |p.params| {
      assert s.arity in Arities(sites);
    }
    if p.inputLock {
      forall i | 0 <= i < |p.params|
        ensures p.params[i].Some?
        ensures exists s :: s in sites && Offers(s, i, p.params[i].value)
        ensures forall s, x | s in sites && Offers(s, i, x) :: x == p.params[i].value
      {
        SlotSound(sites, i, p.params[i].value);
      }
    }
    if p.ret.Some? {
      assert p.ret.value in Returns(sites);
      forall s | s in sites && s.ret.Some? ensures s.ret == p.ret { assert s.ret.value in Returns(sites); }
    }
  }

  lemma SlotSound(sites: seq<Site>, i: nat, x: string)
    requires SpellingsAt(sites, i) == {x}
    ensures exists s :: s in sites && Offers(s, i, x)
    ensures forall s, y | s in sites && Offers(s, i, y) :: y == x
  {
    assert x in SpellingsAt(sites, i);
    var w :| w in sites && w.slots.Some? && i < |w.slots.value| && w.slots.value[i].Some? && w.slots.value[i].value == x;
    assert Offers(w, i, x);
    forall s, y | s in sites && Offers(s, i, y) ensures y == x { assert y in SpellingsAt(sites, i); }
  }

  // ---------- When the merge locks ----------

  /** Zero-arity sites are left out exactly when some site with slots has arguments; the others
      keep their number. */
  lemma ConsideredMeans(all: seq<Site>, s: Site)
    ensures multiset(Considered(all))[s] ==
      if s.arity > 0 || (forall t | t in all && t.slots.Some? :: t.arity == 0) then multiset(all)[s] else 0
  {
    if AnyPositive(all) { PositiveCount(all, s); }
  }

  /** Some live consumer has type `x`, every typed consumer has it, and the return is not dead. */
  ghost predicate AgreedReturn(sites: seq<Site>, dead: bool, x: string) {
    && !dead && (exists s :: s in sites && s.ret == Some(x))
    && forall s | s in sites && s.ret.Some? :: s.ret == Some(x)
  }

  /** Some site offers `x` in slot `i`, no site offers anything else, and the slot is not dead. */
  ghost predicate AgreedSlot(sites: seq<Site>, dead: set<nat>, i: nat, x: string) {
    && i !in dead && (exists s :: s in sites && Offers(s, i, x))
    && forall s, y | s in sites && Offers(s, i, y) :: y == x
  }

  /** A site that says nothing stands beside another one. */
  ghost predicate Incomplete(sites: seq<Site>) {
    |sites| > 1 && exists s :: s in sites && s.ret.None? && s.slots.Some? && forall i | 0 <= i < |s.slots.value| :: s.slots.value[i].None?
  }

  /** Some site offers slots, and all that do have arity `n`. */
  ghost predicate AgreedArity(sites: seq<Site>, n: nat) {
    (exists s :: s in sites && s.slots.Some?) && forall s | s in sites && s.slots.Some? :: s.arity == n
  }

  ghost predicate AritiesDiffer(sites: seq<Site>) {
    exists s, t :: s in sites && t in sites && s.slots.Some? && t.slots.Some? && s.arity != t.arity
  }

  ghost predicate ReturnsDiffer(sites: seq<Site>) {
    exists s, t :: s in sites && t in sites && s.ret.Some? && t.ret.Some? && s.ret != t.ret
  }

  ghost predicate OffersDiffer(sites: seq<Site>, i: nat) {
    exists s, t, a, b :: s in sites && t in sites && Offers(s, i, a) && Offers(t, i, b) && a != b
  }

  lemma ArityOfSites(sites: seq<Site>, n: nat)
    ensures AgreedArity(sites, n) <==> Sole(Arities(sites)) == Some(n)
    ensures Conflict(Arities(sites)) <==> AritiesDiffer(sites)
  {
    if AgreedArity(sites, n) {
      var s :| s in sites && s.slots.Some?;
      assert s.arity in Arities(sites) && Arities(sites) == {n};
      SoleOf(n);
    }
    if Sole(Arities(sites)) == Some(n) {
      assert n in Arities(sites);
      forall s | s in sites && s.slots.Some? ensures s.arity == n { assert s.arity in Arities(sites); }
    }
    if s, t :| s in sites && t in sites && s.slots.Some? && t.slots.Some? && s.arity != t.arity {
      assert s.arity in Arities(sites) && t.arity in Arities(sites);
    }
  }

  lemma ReturnOfSites(sites: seq<Site>, dead: bool, x: string)
    ensures AgreedReturn(sites, dead, x) <==> Ret(sites, dead) == Some(x)
    ensures Conflict(Returns(sites)) <==> ReturnsDiffer(sites)
  {
    if AgreedReturn(sites, dead, x) {
      var s :| s in sites && s.ret == Some(x);
      assert x in Returns(sites) && Returns(sites) == {x};
      SoleOf(x);
    }
    if Ret(sites, dead) == Some(x) {
      assert x in Returns(sites);
      forall s | s in sites && s.ret.Some? ensures s.ret == Some(x) { assert s.ret.value in Returns(sites); }
    }
    if s, t :| s in sites && t in sites && s.ret.Some? && t.ret.Some? && s.ret != t.ret {
      assert s.ret.value in Returns(sites) && t.ret.value in Returns(sites);
    }
  }

  lemma SlotOfSites(sites: seq<Site>, dead: set<nat>, i: nat, x: string)
    ensures AgreedSlot(sites, dead, i, x) <==> i !in dead && Sole(SpellingsAt(sites, i)) == Some(x)
    ensures Conflict(SpellingsAt(sites, i)) <==> OffersDiffer(sites, i)
  {
    if AgreedSlot(sites, dead, i, x) {
      var s :| s in sites && Offers(s, i, x);
      assert x in SpellingsAt(sites, i) && SpellingsAt(sites, i) == {x} by {
        assert x in SpellingsAt(sites, i);
        forall y | y in SpellingsAt(sites, i) ensures y == x { var t := OfferedBy(sites, i, y); }
      }
      SoleOf(x);
    }
    if i !in dead && Sole(SpellingsAt(sites, i)) == Some(x) { SlotSound(sites, i, x); }
    if Conflict(SpellingsAt(sites, i)) {
      var a, b :| a in SpellingsAt(sites, i) && b in SpellingsAt(sites, i) && a != b;
      var s := OfferedBy(sites, i, a);
      var t := OfferedBy(sites, i, b);
      assert Offers(s, i, a) && Offers(t, i, b);
    }
    if s, t, a, b :| s in sites && t in sites && Offers(s, i, a) && Offers(t, i, b) && a != b {
      assert a in SpellingsAt(sites, i) && b in SpellingsAt(sites, i);
    }
  }

  lemma OfferedBy(sites: seq<Site>, i: nat, x: string) returns (s: Site)
    requires x in SpellingsAt(sites, i)
    ensures s in sites && Offers(s, i, x)
  {
    s :| s in sites && s.slots.Some? && i < |s.slots.value| && s.slots.value[i].Some? && s.slots.value[i].value == x;
  }

  /** Slot `i` of the parameters before the lock decision. */
  lemma ParamOfSites(sites: seq<Site>, n: nat, d: EntryDead, i: nat, x: string)
    requires i < n
    ensures Params(sites, n, Killed(sites, n, d.Slots()))[i] == Some(x) <==> AgreedSlot(sites, d.Slots(), i, x)
  {
    SlotOfSites(sites, d.Slots(), i, x);
    if Conflict(SpellingsAt(sites, i)) && Sole(SpellingsAt(sites, i)) == Some(x) { SoleOf(x); }
  }

  ghost predicate SomeAgreed(sites: seq<Site>, dead: set<nat>, i: nat) {
    exists x :: AgreedSlot(sites, dead, i, x)
  }

  /** Every slot of a callee with arguments is agreed on. */
  ghost predicate AllSlotsAgreed(sites: seq<Site>, n: nat, dead: set<nat>) {
    n > 0 && forall i: nat | i < n :: SomeAgreed(sites, dead, i)
  }

  lemma LockOfSites(sites: seq<Site>, n: nat, d: EntryDead)
    ensures FullyEvidenced(Params(sites, n, Killed(sites, n, d.Slots()))) <==> AllSlotsAgreed(sites, n, d.Slots())
  {
    var params := Params(sites, n, Killed(sites, n, d.Slots()));
    if FullyEvidenced(params) {
      forall i: nat | i < n ensures SomeAgreed(sites, d.Slots(), i) {
        ParamOfSites(sites, n, d, i, params[i].value);
      }
    }
    if AllSlotsAgreed(sites, n, d.Slots()) {
      forall i: nat | i < n ensures params[i].Some? {
        assert SomeAgreed(sites, d.Slots(), i);
        var x :| AgreedSlot(sites, d.Slots(), i, x);
        ParamOfSites(sites, n, d, i, x);
      }
    }
  }

  /** What is locked, exactly.  A callee that is dead, incompletely observed or without one
      agreed arity gets no entry.  Otherwise the return is locked if and only if it is agreed
      on, the inputs if and only if every slot is, and there is an entry if and only if
      something is locked. */
  lemma MergeLocks(name: string, all: seq<Site>, d: EntryDead, n: nat)
    ensures var proto, sites := MergedAt(name, all, d).0, Considered(all);
      if d.arity || d.veto || Incomplete(sites) || (forall m: nat :: !AgreedArity(sites, m)) then proto.None?
      else AgreedArity(sites, n) ==>
        && (proto.None? <==> !AllSlotsAgreed(sites, n, d.Slots()) && forall x :: !AgreedReturn(sites, d.ret, x))
        && (proto.Some? ==>
              && proto.value.name == name && |proto.value.params| == n
              && (forall x :: proto.value.ret == Some(x) <==> AgreedReturn(sites, d.ret, x))
              && (proto.value.inputLock <==> AllSlotsAgreed(sites, n, d.Slots()))
              && (forall i: nat, x | i < n :: proto.value.params[i] == Some(x) <==> proto.value.inputLock && AgreedSlot(sites, d.Slots(), i, x)))
  {
    var sites := Considered(all);
    if Sole(Arities(sites)).Some? { ArityOfSites(sites, Sole(Arities(sites)).value); }
    ArityOfSites(sites, n);
    LockOfSites(sites, n, d);
    forall x ensures AgreedReturn(sites, d.ret, x) <==> Ret(sites, d.ret) == Some(x) { ReturnOfSites(sites, d.ret, x); }
    forall i: nat, x | i < n
      ensures Params(sites, n, Killed(sites, n, d.Slots()))[i] == Some(x) <==> AgreedSlot(sites, d.Slots(), i, x)
    {
      ParamOfSites(sites, n, d, i, x);
    }
  }

  /** What is remembered, exactly: the first of the reasons to stop, or else the slots and the
      return on which two sites differ. */
  lemma MergeRemembers(name: string, all: seq<Site>, d: EntryDead, n: nat)
    ensures var d', sites := MergedAt(name, all, d).1, Considered(all);
      if d.arity || d.veto then d' == d
      else if Incomplete(sites) then d' == d.(veto := true)
      else if AritiesDiffer(sites) then d' == d.(arity := true)
      else if forall s | s in sites :: s.slots.None? then d' == d
      else AgreedArity(sites, n) ==>
        && !d'.arity && !d'.veto && d'.slots.Some? && (d'.ret <==> d.ret || ReturnsDiffer(sites))
        && forall i: nat :: i in d'.Slots() <==> i in d.Slots() || (i < n && OffersDiffer(sites, i))
  {
    var sites := Considered(all);
    ArityOfSites(sites, n);
    if AgreedArity(sites, n) { AgreedRemembers(name, sites, n, d); }
    if !AritiesDiffer(sites) && Sole(Arities(sites)).Some? {
      assert Sole(Arities(sites)).value in Arities(sites);
    }
  }

  lemma AgreedRemembers(name: string, sites: seq<Site>, n: nat, d: EntryDead)
    ensures var d' := AgreedAt(name, sites, n, d).1;
      && d'.arity == d.arity && d'.veto == d.veto && d'.slots.Some? && (d'.ret <==> d.ret || ReturnsDiffer(sites))
      && forall i: nat :: i in d'.Slots() <==> i in d.Slots() || (i < n && OffersDiffer(sites, i))
  {
    ReturnOfSites(sites, d.ret, "");
    forall i: nat ensures Conflict(SpellingsAt(sites, i)) <==> OffersDiffer(sites, i) { SlotOfSites(sites, d.Slots(), i, ""); }
  }

  // ---------- What the memory does not remember ----------

  /** Killing a slot round by round, against one pass over both rounds' observations: the two
      agree except when each round is unanimous and the rounds differ from each other. */
  lemma StickyVersusUnion(first: set<string>, second: set<string>)
    ensures (Conflict(first) || Conflict(second) <==> Conflict(first + second))
       <==> !(Sole(first).Some? && Sole(second).Some? && Sole(first) != Sole(second))
  {
    var both := first + second;
    if Conflict(first) {
      var x, y :| x in first && y in first && x != y;
      assert x in both && y in both;
    } else if Conflict(second) {
      var x, y :| x in second && y in second && x != y;
      assert x in both && y in both;
    } else {
      NotConflict(first);
      NotConflict(second);
      if first == {} { assert both == second; }
      else if second == {} { assert both == first; }
      else {
        var x :| first == {x};
        var y :| second == {y};
        SoleOf(x);
        SoleOf(y);
        assert x in both && y in both;
        if x == y { assert both == {x}; }
      }
    }
  }

  /** Two unanimous rounds that contradict each other: the second one is locked all the same. */
  lemma UnanimousRoundsForgotten()
    ensures var round1 := [Site(1, Some([Some("int *")]), None)];
            var round2 := [Site(1, Some([Some("long")]), None)];
            var (_, d) := MergedAt("f", round1, BLANK);
            MergedAt("f", round2, d).0 == Some(Proto("f", [Some("long")], None, true))
  {
    OneSite("f", "int *", BLANK);
    var (_, d) := MergedAt("f", [Site(1, Some([Some("int *")]), None)], BLANK);
    OneSite("f", "long", d);
  }

  lemma OneSite(name: string, x: string, d: EntryDead)
    requires !d.arity && !d.veto && d.Slots() == {}
    ensures MergedAt(name, [Site(1, Some([Some(x)]), None)], d)
            == (Some(Proto(name, [Some(x)], None, true)), d.(slots := Some({})))
  {
    var s := Site(1, Some([Some(x)]), None);
    var sites := [s];
    assert s in sites && AnyPositive(sites);
    assert Positive(sites) == sites by { assert sites[1..] == []; }
    var one: nat := 1;
    assert Arities(sites) == {one};
    SoleOf(one);
    assert SpellingsAt(sites, 0) == {x};
    SoleOf(x);
    assert Killed(sites, 1, {}) == {};
    assert Params(sites, 1, {}) == [Some(x)];
    assert Returns(sites) == {};
    assert d.Slots() + {} == {};
    assert MergedAt(name, sites, d) == AgreedAt(name, sites, 1, d);
  }
}
