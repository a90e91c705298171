/** The sticky memory over whole histories (examples/httpd_decompile.rs:3130-3162): merging the rounds one
    by one against one pass over the union of all rounds, which is what the comment there promises. */
module EvidenceHistory {
  import opened Common
  import opened EvidenceMerge

  type Sites = seq<Site>

  /** What the memory says about a callee after its sites were merged round by round. */
  ghost function Remember(name: string, rounds: seq<Sites>): EntryDead {
    if rounds == [] then BLANK
    else MergedAt(name, rounds[|rounds| - 1], Remember(name, rounds[..|rounds| - 1])).1
  }

  /** All observations of all rounds in one list. */
  ghost function Flat(rounds: seq<Sites>): Sites {
    if rounds == [] then [] else Flat(rounds[..|rounds| - 1]) + rounds[|rounds| - 1]
  }

  /** What one pass over everything would remember. */
  ghost function Union(name: string, rounds: seq<Sites>): EntryDead {
    MergedAt(name, Flat(rounds), BLANK).1
  }

  ghost predicate AllWellFormed(rounds: seq<Sites>) {
    forall i | 0 <= i < |rounds| :: WellFormed(rounds[i])
  }

  // ---------- One merge, part by part ----------

  /** A silent site beside another one. */
  ghost predicate Vetoes(sites: Sites) {
    |Considered(sites)| > 1 && exists s :: s in Considered(sites) && Silent(s)
  }

  ghost predicate Drops(sites: Sites) {
    !Vetoes(sites) && Conflict(Arities(Considered(sites)))
  }

  /** Merging these sites ends the callee for good. */
  ghost predicate Stops(sites: Sites) {
    Vetoes(sites) || Drops(sites)
  }

  ghost predicate SlotClash(sites: Sites, k: nat) {
    !Stops(sites) && Conflict(SpellingsAt(sites, k))
  }

  ghost predicate ReturnClash(sites: Sites) {
    !Stops(sites) && Arities(Considered(sites)) != {} && Conflict(Returns(Considered(sites)))
  }

  lemma Offerer(sites: Sites, k: nat, x: string) returns (s: Site)
    requires x in SpellingsAt(sites, k)
    ensures s in sites && Offers(s, k, x)
  {
    s :| s in sites && s.slots.Some? && k < |s.slots.value| && s.slots.value[k].Some? && s.slots.value[k].value == x;
  }

  /** Only sites with arguments offer spellings, and those the zero-arity filter keeps. */
  lemma ConsideredSpellings(sites: Sites, k: nat)
    requires WellFormed(sites)
    ensures SpellingsAt(Considered(sites), k) == SpellingsAt(sites, k)
  {
    forall x | x in SpellingsAt(sites, k) ensures x in SpellingsAt(Considered(sites), k) {
      var s := Offerer(sites, k, x);
      assert s.arity > k && AnyPositive(sites);
      assert s in Considered(sites);
    }
    forall x | x in SpellingsAt(Considered(sites), k) ensures x in SpellingsAt(sites, k) {
      var s := Offerer(Considered(sites), k, x);
      assert s in sites;
    }
  }

  lemma MergeEnds(name: string, sites: Sites, d: EntryDead)
    ensures var d' := MergedAt(name, sites, d).1;
      && (d'.veto <==> d.veto || (!d.arity && Vetoes(sites)))
      && (d'.arity <==> d.arity || (!d.veto && Drops(sites)))
  {
  }

  /** A slot some sites disagree on has an index below the arity they agree on. */
  lemma ClashInRange(sites: Sites, k: nat)
    requires WellFormed(sites) && !Conflict(Arities(Considered(sites))) && Conflict(SpellingsAt(sites, k))
    ensures Sole(Arities(Considered(sites))).Some? && k < Sole(Arities(Considered(sites))).value
  {
    var c := Considered(sites);
    ConsideredSpellings(sites, k);
    var x, y :| x in SpellingsAt(c, k) && y in SpellingsAt(c, k) && x != y;
    var s := Offerer(c, k, x);
    assert s.arity in Arities(c);
    NotConflict(Arities(c));
  }

  lemma MergeSlot(name: string, sites: Sites, d: EntryDead, k: nat)
    requires WellFormed(sites)
    ensures k in MergedAt(name, sites, d).1.Slots() <==> k in d.Slots() || (!d.arity && !d.veto && SlotClash(sites, k))
  {
    if !d.arity && !d.veto && !Stops(sites) {
      ConsideredSpellings(sites, k);
      if Conflict(SpellingsAt(sites, k)) { ClashInRange(sites, k); }
    }
  }

  lemma MergeReturn(name: string, sites: Sites, d: EntryDead)
    ensures MergedAt(name, sites, d).1.ret <==> d.ret || (!d.arity && !d.veto && ReturnClash(sites))
  {
    if !Conflict(Arities(Considered(sites))) { NotConflict(Arities(Considered(sites))); }
  }

  // ---------- What the rounds remember ----------

  /** Round `i` is still merged: no earlier round has ended the callee. */
  ghost predicate Reached(rounds: seq<Sites>, i: nat)
    requires i <= |rounds|
  {
    forall j | 0 <= j < i :: !Stops(rounds[j])
  }

  /** Some round that is still merged shows `what` by itself. */
  ghost predicate Ever(rounds: seq<Sites>, what: Sites -> bool) {
    exists i | 0 <= i < |rounds| :: Reached(rounds, i) && what(rounds[i])
  }

  lemma EverSnoc(rounds: seq<Sites>, what: Sites -> bool)
    requires rounds != []
    ensures var n := |rounds| - 1;
      Ever(rounds, what) <==> Ever(rounds[..n], what) || (Reached(rounds, n) && what(rounds[n]))
  {
    var n := |rounds| - 1;
    var before := rounds[..n];
    assert forall i | 0 <= i < n :: before[i] == rounds[i];
    assert forall i | 0 <= i < n :: Reached(before, i) <==> Reached(rounds, i);
    if Ever(before, what) {
      var i :| 0 <= i < n && Reached(before, i) && what(before[i]);
      assert Reached(rounds, i) && what(rounds[i]);
    }
    if Ever(rounds, what) {
      var i :| 0 <= i < |rounds| && Reached(rounds, i) && what(rounds[i]);
      if i < n { assert Reached(before, i) && what(before[i]); }
    }
  }

  lemma ReachedSnoc(rounds: seq<Sites>)
    requires rounds != []
    ensures var n := |rounds| - 1;
      && (Reached(rounds, n) <==> Reached(rounds[..n], n))
      && (Reached(rounds, n + 1) <==> Reached(rounds, n) && !Stops(rounds[n]))
  {
  }

  /** The callee is ended by the first round that ends it, and by nothing else. */
  lemma {:induction false} RememberEnds(name: string, rounds: seq<Sites>)
    ensures var d := Remember(name, rounds);
      && (d.veto <==> Ever(rounds, Vetoes)) && (d.arity <==> Ever(rounds, Drops))
      && (d.veto || d.arity <==> !Reached(rounds, |rounds|))
    decreases |rounds|
  {
    if rounds != [] {
      var n := |rounds| - 1;
      RememberEnds(name, rounds[..n]);
      MergeEnds(name, rounds[n], Remember(name, rounds[..n]));
      ReachedSnoc(rounds);
      EverSnoc(rounds, Vetoes);
      EverSnoc(rounds, Drops);
    }
  }

  /** A slot is dead exactly when a round that was still merged disagreed on it by itself. */
  lemma {:induction false} RememberSlot(name: string, rounds: seq<Sites>, k: nat)
    requires AllWellFormed(rounds)
    ensures k in Remember(name, rounds).Slots() <==> Ever(rounds, sites => SlotClash(sites, k))
    decreases |rounds|
  {
    if rounds != [] {
      var n := |rounds| - 1;
      RememberSlot(name, rounds[..n], k);
      RememberEnds(name, rounds[..n]);
      MergeSlot(name, rounds[n], Remember(name, rounds[..n]), k);
      ReachedSnoc(rounds);
      EverSnoc(rounds, sites => SlotClash(sites, k));
    }
  }

  /** Likewise the return. */
  lemma {:induction false} RememberReturn(name: string, rounds: seq<Sites>)
    ensures Remember(name, rounds).ret <==> Ever(rounds, ReturnClash)
    decreases |rounds|
  {
    if rounds != [] {
      var n := |rounds| - 1;
      RememberReturn(name, rounds[..n]);
      RememberEnds(name, rounds[..n]);
      MergeReturn(name, rounds[n], Remember(name, rounds[..n]));
      ReachedSnoc(rounds);
      EverSnoc(rounds, ReturnClash);
    }
  }

  // ---------- A round inside the union ----------

  lemma {:induction false} FlatMembers(rounds: seq<Sites>, s: Site)
    ensures s in Flat(rounds) <==> exists i | 0 <= i < |rounds| :: s in rounds[i]
    decreases |rounds|
  {
    if rounds != [] {
      var n := |rounds| - 1;
      FlatMembers(rounds[..n], s);
      assert forall i | 0 <= i < n :: rounds[..n][i] == rounds[i];
    }
  }

  lemma FlatWellFormed(rounds: seq<Sites>)
    requires AllWellFormed(rounds)
    ensures WellFormed(Flat(rounds))
  {
    forall s | s in Flat(rounds) && s.slots.Some? ensures |s.slots.value| == s.arity { FlatMembers(rounds, s); }
  }

  lemma RoundInFlat(rounds: seq<Sites>, i: nat)
    requires i < |rounds|
    ensures forall s | s in rounds[i] :: s in Flat(rounds)
    ensures AnyPositive(rounds[i]) ==> AnyPositive(Flat(rounds))
  {
    forall s | s in rounds[i] ensures s in Flat(rounds) { FlatMembers(rounds, s); }
  }

  /** The zero-arity filter of the union spares what the round's own filter keeps, unless only
      other rounds have arguments. */
  ghost predicate FilteredAlike(rounds: seq<Sites>, i: nat)
    requires i < |rounds|
  {
    AnyPositive(rounds[i]) || !AnyPositive(Flat(rounds))
  }

  lemma Kept(rounds: seq<Sites>, i: nat)
    requires i < |rounds| && FilteredAlike(rounds, i)
    ensures forall s | s in Considered(rounds[i]) :: s in Considered(Flat(rounds))
    ensures |Considered(rounds[i])| <= |Considered(Flat(rounds))|
  {
    RoundInFlat(rounds, i);
    FlatLength(rounds, i);
  }

  lemma {:induction false} PositiveConcat(a: Sites, b: Sites)
    ensures Positive(a + b) == Positive(a) + Positive(b)
    decreases |a|
  {
    if a == [] {
      assert a + b == b;
    } else {
      PositiveConcat(a[1..], b);
      PositiveFirst(a, b);
    }
  }

  lemma PositiveFirst(a: Sites, b: Sites)
    requires a != []
    ensures Positive(a + b) == (if a[0].arity > 0 then [a[0]] else []) + Positive(a[1..] + b)
  {
    assert (a + b)[1..] == a[1..] + b && (a + b)[0] == a[0];
  }

  lemma {:induction false} FlatLength(rounds: seq<Sites>, i: nat)
    requires i < |rounds|
    ensures |rounds[i]| <= |Flat(rounds)| && |Positive(rounds[i])| <= |Positive(Flat(rounds))|
    decreases |rounds|
  {
    var n := |rounds| - 1;
    PositiveConcat(Flat(rounds[..n]), rounds[n]);
    if i < n { FlatLength(rounds[..n], i); }
  }

  /** A round that disagrees on the arity has arguments, so the union sees both arities. */
  lemma ArityInUnion(rounds: seq<Sites>, i: nat)
    requires i < |rounds| && Conflict(Arities(Considered(rounds[i])))
    ensures Conflict(Arities(Considered(Flat(rounds))))
  {
    var c, u := Considered(rounds[i]), Considered(Flat(rounds));
    var x, y :| x in Arities(c) && y in Arities(c) && x != y;
    var s :| s in c && s.slots.Some? && s.arity == x;
    var t :| t in c && t.slots.Some? && t.arity == y;
    assert s in rounds[i] && t in rounds[i];
    assert AnyPositive(rounds[i]) by { assert s.arity > 0 || t.arity > 0; }
    Kept(rounds, i);
    assert s in u && t in u;
    assert x in Arities(u) && y in Arities(u);
  }

  /** A round without arguments whose silent site vetoes only because nobody had any. */
  ghost predicate ArtifactVeto(sites: Sites) {
    !AnyPositive(sites) && |sites| > 1 && exists s :: s in sites && Silent(s)
  }

  lemma VetoInUnion(rounds: seq<Sites>, i: nat)
    requires i < |rounds| && Vetoes(rounds[i])
    ensures Vetoes(Flat(rounds)) || ArtifactVeto(rounds[i])
  {
    if FilteredAlike(rounds, i) {
      Kept(rounds, i);
      var s :| s in Considered(rounds[i]) && Silent(s);
      assert s in Considered(Flat(rounds));
    }
  }

  lemma SpellingInUnion(rounds: seq<Sites>, i: nat, k: nat)
    requires i < |rounds| && Conflict(SpellingsAt(rounds[i], k))
    ensures Conflict(SpellingsAt(Flat(rounds), k))
  {
    RoundInFlat(rounds, i);
    var x, y :| x in SpellingsAt(rounds[i], k) && y in SpellingsAt(rounds[i], k) && x != y;
    var s := Offerer(rounds[i], k, x);
    var t := Offerer(rounds[i], k, y);
    assert s in Flat(rounds) && t in Flat(rounds);
    assert x in SpellingsAt(Flat(rounds), k) && y in SpellingsAt(Flat(rounds), k);
  }

  lemma ReturnInUnion(rounds: seq<Sites>, i: nat)
    requires i < |rounds| && FilteredAlike(rounds, i) && ReturnClash(rounds[i]) && !Stops(Flat(rounds))
    ensures ReturnClash(Flat(rounds))
  {
    var c, u := Considered(rounds[i]), Considered(Flat(rounds));
    Kept(rounds, i);
    var a :| a in Arities(c);
    var w :| w in c && w.slots.Some? && w.arity == a;
    assert w in u && a in Arities(u);
    var x, y :| x in Returns(c) && y in Returns(c) && x != y;
    var s :| s in c && s.ret.Some? && s.ret.value == x;
    var t :| t in c && t.ret.Some? && t.ret.value == y;
    assert s in u && t in u && x in Returns(u) && y in Returns(u);
  }

  // ---------- When the memory is that of the union ----------

  lemma UnionParts(name: string, rounds: seq<Sites>, k: nat)
    requires AllWellFormed(rounds)
    ensures var d := Union(name, rounds);
      && (d.veto <==> Vetoes(Flat(rounds))) && (d.arity <==> Drops(Flat(rounds)))
      && (k in d.Slots() <==> SlotClash(Flat(rounds), k)) && (d.ret <==> ReturnClash(Flat(rounds)))
  {
    FlatWellFormed(rounds);
    MergeEnds(name, Flat(rounds), BLANK);
    MergeSlot(name, Flat(rounds), BLANK, k);
    MergeReturn(name, Flat(rounds), BLANK);
  }

  /** The veto is that of the union exactly when: if the union has a silent site beside another
      one, some round that is still merged has one too; and if it has none, no such round
      vetoes over sites without arguments. */
  lemma VetoVersusUnion(name: string, rounds: seq<Sites>)
    requires AllWellFormed(rounds)
    ensures (Remember(name, rounds).veto <==> Union(name, rounds).veto) <==>
      if Vetoes(Flat(rounds)) then Ever(rounds, Vetoes) else !Ever(rounds, ArtifactVeto)
  {
    RememberEnds(name, rounds);
    UnionParts(name, rounds, 0);
    if !Vetoes(Flat(rounds)) {
      if Ever(rounds, Vetoes) {
        var i :| 0 <= i < |rounds| && Reached(rounds, i) && Vetoes(rounds[i]);
        VetoInUnion(rounds, i);
        assert ArtifactVeto(rounds[i]);
      }
      if Ever(rounds, ArtifactVeto) {
        var i :| 0 <= i < |rounds| && Reached(rounds, i) && ArtifactVeto(rounds[i]);
        assert Vetoes(rounds[i]);
      }
    }
  }

  /** The arity drop is that of the union exactly when: under a union veto no round that is
      still merged drops; otherwise two arities anywhere mean two in one such round. */
  lemma ArityVersusUnion(name: string, rounds: seq<Sites>)
    requires AllWellFormed(rounds)
    ensures (Remember(name, rounds).arity <==> Union(name, rounds).arity) <==>
      if Vetoes(Flat(rounds)) then !Ever(rounds, Drops)
      else Conflict(Arities(Considered(Flat(rounds)))) ==> Ever(rounds, Drops)
  {
    RememberEnds(name, rounds);
    UnionParts(name, rounds, 0);
    if Ever(rounds, Drops) {
      var i :| 0 <= i < |rounds| && Reached(rounds, i) && Drops(rounds[i]);
      ArityInUnion(rounds, i);
    }
  }

  /** A slot is dead as in the union exactly when: if the union ends the callee, no round that
      is still merged disagrees on the slot; otherwise a disagreement over all rounds is already
      one within such a round.  Rounds that are each unanimous but differ are the failing case. */
  lemma SlotVersusUnion(name: string, rounds: seq<Sites>, k: nat)
    requires AllWellFormed(rounds)
    ensures (k in Remember(name, rounds).Slots() <==> k in Union(name, rounds).Slots()) <==>
      if Stops(Flat(rounds)) then !Ever(rounds, sites => SlotClash(sites, k))
      else Conflict(SpellingsAt(Flat(rounds), k)) ==> Ever(rounds, sites => SlotClash(sites, k))
  {
    var clash := sites => SlotClash(sites, k);
    RememberSlot(name, rounds, k);
    UnionParts(name, rounds, k);
    if Ever(rounds, clash) {
      var i :| 0 <= i < |rounds| && Reached(rounds, i) && clash(rounds[i]);
      SpellingInUnion(rounds, i, k);
    }
  }

  /** The return, likewise; here a round without arguments can also disagree over sites that
      the union's filter drops. */
  lemma ReturnVersusUnion(name: string, rounds: seq<Sites>)
    requires AllWellFormed(rounds)
    ensures (Remember(name, rounds).ret <==> Union(name, rounds).ret) <==>
      if Stops(Flat(rounds)) then !Ever(rounds, ReturnClash)
      else if ReturnClash(Flat(rounds)) then Ever(rounds, ReturnClash)
      else !Ever(rounds, sites => ReturnClash(sites) && !AnyPositive(sites))
  {
    var bare := sites => ReturnClash(sites) && !AnyPositive(sites);
    RememberReturn(name, rounds);
    UnionParts(name, rounds, 0);
    if Ever(rounds, ReturnClash) {
      var i :| 0 <= i < |rounds| && Reached(rounds, i) && ReturnClash(rounds[i]);
      if !Stops(Flat(rounds)) && !ReturnClash(Flat(rounds)) {
        if FilteredAlike(rounds, i) { ReturnInUnion(rounds, i); }
        assert bare(rounds[i]);
      }
    }
    if Ever(rounds, bare) {
      var i :| 0 <= i < |rounds| && Reached(rounds, i) && bare(rounds[i]);
      assert ReturnClash(rounds[i]);
    }
  }

  /** Where nothing ends the callee, the rounds kill a slot as their union would exactly when a
      disagreement over all of them is already one within a round. */
  lemma PlainSlots(name: string, rounds: seq<Sites>, k: nat)
    requires AllWellFormed(rounds) && !Stops(Flat(rounds))
    requires forall i | 0 <= i < |rounds| :: !Stops(rounds[i])
    ensures (k in Remember(name, rounds).Slots() <==> k in Union(name, rounds).Slots()) <==>
      (Conflict(SpellingsAt(Flat(rounds), k)) ==> exists i | 0 <= i < |rounds| :: Conflict(SpellingsAt(rounds[i], k)))
  {
    SlotVersusUnion(name, rounds, k);
    var clash := sites => SlotClash(sites, k);
    if i :| 0 <= i < |rounds| && Conflict(SpellingsAt(rounds[i], k)) {
      assert Reached(rounds, i) && clash(rounds[i]);
    }
  }

  /** For two rounds that is: unless each is unanimous on the slot and they differ. */
  lemma PlainSlotsOfTwo(name: string, first: Sites, second: Sites, k: nat)
    requires WellFormed(first) && WellFormed(second)
    requires !Stops(first) && !Stops(second) && !Stops(first + second)
    ensures (k in Remember(name, [first, second]).Slots() <==> k in Union(name, [first, second]).Slots()) <==>
      !(Sole(SpellingsAt(first, k)).Some? && Sole(SpellingsAt(second, k)).Some?
        && Sole(SpellingsAt(first, k)) != Sole(SpellingsAt(second, k)))
  {
    var rounds := [first, second];
    FlatTwo(first, second);
    PlainSlots(name, rounds, k);
    SpellingsConcat(first, second, k);
    if Conflict(SpellingsAt(first, k)) { SpellingInUnion(rounds, 0, k); }
    if Conflict(SpellingsAt(second, k)) { SpellingInUnion(rounds, 1, k); }
    assert (exists i | 0 <= i < |rounds| :: Conflict(SpellingsAt(rounds[i], k))) <==>
      Conflict(SpellingsAt(rounds[0], k)) || Conflict(SpellingsAt(rounds[1], k));
    StickyVersusUnion(SpellingsAt(first, k), SpellingsAt(second, k));
  }

  lemma FlatTwo(first: Sites, second: Sites)
    ensures Flat([first, second]) == first + second
  {
    assert [first, second][..1] == [first] && [first][..0] == [];
    assert Flat([first]) == [] + first;
  }

  lemma SpellingsConcat(a: Sites, b: Sites, k: nat)
    ensures SpellingsAt(a + b, k) == SpellingsAt(a, k) + SpellingsAt(b, k)
  {
    forall x | x in SpellingsAt(a, k) + SpellingsAt(b, k) ensures x in SpellingsAt(a + b, k) {
      var s := Offerer(if x in SpellingsAt(a, k) then a else b, k, x);
      assert s in a + b;
    }
  }

  /** A single site neither vetoes nor drops. */
  lemma OneSiteGoesOn(s: Site)
    ensures !Stops([s])
  {
    assert |Positive([s])| <= 1 by { assert [s][1..] == []; }
    assert forall t | t in Considered([s]) :: t == s;
  }

  lemma AloneNeverEnds(name: string, a: Site, b: Site)
    ensures !Remember(name, [[a], [b]]).veto && !Remember(name, [[a], [b]]).arity
  {
    OneSiteGoesOn(a);
    OneSiteGoesOn(b);
    RememberEnds(name, [[a], [b]]);
  }

  /** Unanimous arities that differ from round to round are forgotten. */
  lemma ArityForgotten(name: string)
    ensures var rounds := [[Site(1, Some([Some("int")]), None)], [Site(2, Some([Some("int"), Some("int")]), None)]];
      !Remember(name, rounds).arity && Union(name, rounds).arity
  {
    var a, b := Site(1, Some([Some("int")]), None), Site(2, Some([Some("int"), Some("int")]), None);
    var all := [a, b];
    AloneNeverEnds(name, a, b);
    FlatTwo([a], [b]);
    assert [a] + [b] == all && a in all && b in all;
    assert AnyPositive(all);
    assert a in Considered(all) && b in Considered(all);
    assert a.arity in Arities(Considered(all)) && b.arity in Arities(Considered(all));
    assert Offers(a, 0, "int") && Offers(b, 0, "int");
    assert forall s | s in Considered(all) :: !Silent(s);
    MergeEnds(name, all, BLANK);
  }

  /** A silent site that is alone in its round is forgotten. */
  lemma LoneSilentForgotten(name: string)
    ensures var rounds := [[Site(1, Some([None]), None)], [Site(1, Some([Some("int")]), None)]];
      !Remember(name, rounds).veto && Union(name, rounds).veto
  {
    var a, b := Site(1, Some([None]), None), Site(1, Some([Some("int")]), None);
    var all := [a, b];
    AloneNeverEnds(name, a, b);
    FlatTwo([a], [b]);
    assert [a] + [b] == all && a in all;
    assert AnyPositive(all);
    assert Positive(all) == all by { assert all[1..] == [b] && [b][1..] == []; }
    assert Silent(a) && a in Considered(all);
    MergeEnds(name, all, BLANK);
  }
}
