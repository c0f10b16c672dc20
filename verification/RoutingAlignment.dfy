/** The alignment of every environment's model routing with one source environment: a plan of
    tier and stage saves, their application through a writer that reaches only some lineages,
    and the convergence of repeated runs. */
module RoutingAlignment {
  import opened Wrappers

  type Policy = string
  type Tier = string
  type Purpose = string
  type Chain = seq<string>

  /** A stage entry of a lineage: an explicit chain, or any other mode. */
  datatype Pin = Explicit(chain: Chain) | OtherMode

  /** The latest version of one policy lineage. */
  datatype Lineage = Lineage(tiers: map<Tier, Chain>, pins: map<Purpose, Pin>)

  type Router = map<Policy, Lineage>

  /** What an environment's writer does with a save: the lineages that its model configurations
      reach, the tier of each stage, and whether a tier save drops that tier's stage pins. */
  datatype Writer = Writer(
    tierReach: map<Tier, set<Policy>>, pinReach: map<Purpose, set<Policy>>, tierOf: map<Purpose, Tier>, drops: bool)
  {
    function TierReach(t: Tier): set<Policy> { if t in tierReach then tierReach[t] else {} }
    function PinReach(u: Purpose): set<Policy> { if u in pinReach then pinReach[u] else {} }
  }

  datatype Environment = Environment(writer: Writer, router: Router)

  /** The selections of the source environment, in sorted order; no chain is empty. */
  datatype Source = Source(tiers: seq<(Tier, Chain)>, purposes: seq<(Purpose, Chain)>) {
    predicate Valid() {
      && (forall i, j | 0 <= i < j < |tiers| :: tiers[i].0 != tiers[j].0)
      && (forall i, j | 0 <= i < j < |purposes| :: purposes[i].0 != purposes[j].0)
      && (forall x | x in tiers :: x.1 != [])
      && (forall x | x in purposes :: x.1 != [])
    }
  }

  datatype Item = TierItem(tier: Tier, chain: Chain) | PinItem(purpose: Purpose, chain: Chain)

  // ------------------------------------------------------------ who takes part

  /** The chain a lineage declares for a tier; an empty one is none. */
  function TierChain(l: Lineage, t: Tier): Chain {
    if t in l.tiers then l.tiers[t] else []
  }

  function TierHolders(r: Router, t: Tier): set<Policy> {
    var declaring := set p | p in r && TierChain(r[p], t) != [];
    if declaring != {} then declaring else r.Keys
  }

  /** The lineage has an entry for the stage or declares the stage's tier. */
  predicate HoldsStage(w: Writer, l: Lineage, u: Purpose) {
    u in l.pins || (u in w.tierOf && TierChain(l, w.tierOf[u]) != [])
  }

  function PurposeHolders(w: Writer, r: Router, u: Purpose): set<Policy> {
    var holding := set p | p in r && HoldsStage(w, r[p], u);
    if holding != {} then holding else r.Keys
  }

  predicate PinIs(l: Lineage, u: Purpose, c: Chain) {
    u in l.pins && l.pins[u] == Explicit(c)
  }

  predicate TierAligned(r: Router, t: Tier, c: Chain) {
    forall p | p in TierHolders(r, t) :: TierChain(r[p], t) == c
  }

  predicate PinAligned(w: Writer, r: Router, u: Purpose, c: Chain) {
    forall p | p in PurposeHolders(w, r, u) :: PinIs(r[p], u, c)
  }

  predicate Aligned(source: Source, e: Environment) {
    && (forall x | x in source.tiers :: TierAligned(e.router, x.0, x.1))
    && forall x | x in source.purposes :: PinAligned(e.writer, e.router, x.0, x.1)
  }

  // ------------------------------------------------------------ one save

  function SavedLineage(w: Writer, l: Lineage, item: Item): Lineage {
    match item
    case TierItem(t, c) =>
      Lineage(l.tiers[t := c], map u | u in l.pins && !(w.drops && u in w.tierOf && w.tierOf[u] == t) :: l.pins[u])
    case PinItem(u, c) => Lineage(l.tiers, l.pins[u := Explicit(c)])
  }

  function Reach(w: Writer, item: Item): set<Policy> {
    match item
    case TierItem(t, _) => w.TierReach(t)
    case PinItem(u, _) => w.PinReach(u)
  }

  function Save(w: Writer, r: Router, item: Item): Router {
    map p | p in r :: if p in Reach(w, item) then SavedLineage(w, r[p], item) else r[p]
  }

  /** One save, lineage by lineage: those that the writer reaches get the chain or the pin and keep their
      other entries, but for the stage pins of a tier whose save drops them; no lineage appears or goes. */
  lemma OneSave(w: Writer, r: Router, item: Item, p: Policy)
    requires p in r
    ensures Save(w, r, item).Keys == r.Keys
    ensures var (was, now) := (r[p], Save(w, r, item)[p]);
      match item
      case TierItem(t, c) =>
        if t in w.tierReach && p in w.tierReach[t] then
          && t in now.tiers && now.tiers[t] == c && now.tiers.Keys == was.tiers.Keys + {t}
          && (forall s | s in was.tiers && s != t :: now.tiers[s] == was.tiers[s])
          && (forall u :: u in now.pins <==> u in was.pins && (w.drops ==> u !in w.tierOf || w.tierOf[u] != t))
          && (forall u | u in now.pins :: now.pins[u] == was.pins[u])
        else now == was
      case PinItem(u, c) =>
        if u in w.pinReach && p in w.pinReach[u] then
          && u in now.pins && now.pins[u] == Explicit(c) && now.pins.Keys == was.pins.Keys + {u}
          && (forall v | v in was.pins && v != u :: now.pins[v] == was.pins[v])
          && now.tiers == was.tiers
        else now == was
  {
  }

  function SaveAll(w: Writer, r: Router, items: seq<Item>): Router {
    if items == [] then r else Save(w, SaveAll(w, r, items[..|items| - 1]), items[|items| - 1])
  }

  /** A save that fails when it has been made in some lineages. */
  function PartSave(w: Writer, r: Router, item: Item, reached: set<Policy>): Router {
    map p | p in r :: if p in reached then Save(w, r, item)[p] else r[p]
  }

  /** Where a run is cut off: before this save has reached more than these lineages. */
  datatype Cut = Cut(saves: nat, reached: set<Policy>)

  /** The saves of a list up to the cut, or all of them. */
  function SavesTo(w: Writer, r: Router, items: seq<Item>, cut: Cut): Router {
    if cut.saves < |items|
    then PartSave(w, SaveAll(w, r, items[..cut.saves]), items[cut.saves], cut.reached)
    else SaveAll(w, r, items)
  }

  // ------------------------------------------------------------ the plan

  function TierPlan(tiers: seq<(Tier, Chain)>, r: Router): seq<Item> {
    if tiers == [] then []
    else
      var (t, c) := tiers[|tiers| - 1];
      TierPlan(tiers[..|tiers| - 1], r) + if TierAligned(r, t, c) then [] else [TierItem(t, c)]
  }

  function PinPlan(purposes: seq<(Purpose, Chain)>, w: Writer, r: Router): seq<Item> {
    if purposes == [] then []
    else
      var (u, c) := purposes[|purposes| - 1];
      PinPlan(purposes[..|purposes| - 1], w, r) + if PinAligned(w, r, u, c) then [] else [PinItem(u, c)]
  }

  function Plan(source: Source, e: Environment): seq<Item> {
    TierPlan(source.tiers, e.router) + PinPlan(source.purposes, e.writer, e.router)
  }

  /** A whole run on one environment. */
  function Run(source: Source, e: Environment): Environment {
    e.(router := SaveAll(e.writer, e.router, Plan(source, e)))
  }

  lemma {:induction false} TierPlanHolds(tiers: seq<(Tier, Chain)>, r: Router)
    ensures forall item | item in TierPlan(tiers, r) :: item.TierItem? && (item.tier, item.chain) in tiers
    ensures forall x | x in tiers :: TierItem(x.0, x.1) in TierPlan(tiers, r) <==> !TierAligned(r, x.0, x.1)
  {
    if tiers != [] {
      var rest := tiers[..|tiers| - 1];
      TierPlanHolds(rest, r);
      forall x | x in tiers
        ensures TierItem(x.0, x.1) in TierPlan(tiers, r) <==> !TierAligned(r, x.0, x.1)
      {
        if x !in rest { assert x == tiers[|tiers| - 1]; }
      }
    }
  }

  lemma {:induction false} PinPlanHolds(purposes: seq<(Purpose, Chain)>, w: Writer, r: Router)
    ensures forall item | item in PinPlan(purposes, w, r) :: item.PinItem? && (item.purpose, item.chain) in purposes
    ensures forall x | x in purposes :: PinItem(x.0, x.1) in PinPlan(purposes, w, r) <==> !PinAligned(w, r, x.0, x.1)
  {
    if purposes != [] {
      var rest := purposes[..|purposes| - 1];
      PinPlanHolds(rest, w, r);
      forall x | x in purposes
        ensures PinItem(x.0, x.1) in PinPlan(purposes, w, r) <==> !PinAligned(w, r, x.0, x.1)
      {
        if x !in rest { assert x == purposes[|purposes| - 1]; }
      }
    }
  }

  /** An environment is aligned exactly when there is nothing to publish. */
  lemma AlignedPlansNothing(source: Source, e: Environment)
    ensures Aligned(source, e) <==> Plan(source, e) == []
  {
    TierPlanHolds(source.tiers, e.router);
    PinPlanHolds(source.purposes, e.writer, e.router);
    if Plan(source, e) != [] {
      var item := Plan(source, e)[0];
      assert item in TierPlan(source.tiers, e.router) || item in PinPlan(source.purposes, e.writer, e.router);
    }
  }

  // ------------------------------------------------------------ tiers

  /** Alignment without the notion of a holder: nobody declares another chain, and somebody
      declares the wanted one. */
  lemma TierAlignedMeans(r: Router, t: Tier, c: Chain)
    requires c != []
    ensures TierAligned(r, t, c) <==>
      (forall p | p in r :: TierChain(r[p], t) == [] || TierChain(r[p], t) == c) &&
        (r.Keys == {} || exists p :: p in r && TierChain(r[p], t) == c)
  {
    var declaring := set p | p in r && TierChain(r[p], t) != [];
    forall p | p in r ensures p in declaring <==> TierChain(r[p], t) != [] {}
    if declaring == {} {
      assert forall p | p in r :: p !in declaring;
    } else {
      var p :| p in declaring;
    }
  }

  /** What one save leaves a lineage declaring for a tier. */
  lemma SavedTierOnce(w: Writer, r: Router, item: Item, t: Tier, c: Chain, p: Policy)
    requires p in r && (item.TierItem? && item.tier == t ==> item.chain == c)
    ensures TierChain(Save(w, r, item)[p], t) ==
      if item == TierItem(t, c) && p in w.TierReach(t) then c else TierChain(r[p], t)
  {
  }

  /** What any saves of the source's own selections leave a lineage declaring for a tier. */
  lemma {:induction false} SavedTier(w: Writer, r: Router, items: seq<Item>, t: Tier, c: Chain)
    requires forall item | item in items :: item.TierItem? && item.tier == t ==> item.chain == c
    ensures SaveAll(w, r, items).Keys == r.Keys
    ensures forall p | p in r ::
      TierChain(SaveAll(w, r, items)[p], t) ==
      if TierItem(t, c) in items && p in w.TierReach(t) then c else TierChain(r[p], t)
  {
    if items != [] {
      var rest, last := items[..|items| - 1], items[|items| - 1];
      SavedTier(w, r, rest, t, c);
      assert TierItem(t, c) in items <==> TierItem(t, c) in rest || last == TierItem(t, c);
      forall p | p in r
        ensures TierChain(SaveAll(w, r, items)[p], t) ==
          if TierItem(t, c) in items && p in w.TierReach(t) then c else TierChain(r[p], t)
      {
        SavedTierOnce(w, SaveAll(w, r, rest), last, t, c, p);
      }
    }
  }

  /** A save can align the tier: it reaches someone, and nobody beyond its reach declares
      anything but the wanted chain. */
  predicate TierCoverable(w: Writer, r: Router, t: Tier, c: Chain) {
    && (exists p :: p in r && p in w.TierReach(t))
    && forall p | p in r && p !in w.TierReach(t) :: TierChain(r[p], t) == [] || TierChain(r[p], t) == c
  }

  lemma SourceIsFunctional<T>(selections: seq<(T, Chain)>, x: (T, Chain), y: (T, Chain))
    requires forall i, j | 0 <= i < j < |selections| :: selections[i].0 != selections[j].0
    requires x in selections && y in selections
    ensures x.0 == y.0 ==> x == y
  {
    var i :| 0 <= i < |selections| && selections[i] == x;
    var j :| 0 <= j < |selections| && selections[j] == y;
    if i < j {
      assert selections[i].0 != selections[j].0;
    } else if j < i {
      assert selections[j].0 != selections[i].0;
    }
  }

  predicate FromSource(source: Source, item: Item) {
    if item.TierItem? then (item.tier, item.chain) in source.tiers else (item.purpose, item.chain) in source.purposes
  }

  lemma PlanFromSource(source: Source, e: Environment)
    ensures forall item | item in Plan(source, e) :: FromSource(source, item)
  {
    TierPlanHolds(source.tiers, e.router);
    PinPlanHolds(source.purposes, e.writer, e.router);
  }

  lemma OneChainPerTier(source: Source, items: seq<Item>, x: (Tier, Chain))
    requires source.Valid() && x in source.tiers && forall item | item in items :: FromSource(source, item)
    ensures forall item | item in items :: item.TierItem? && item.tier == x.0 ==> item.chain == x.1
  {
    forall item | item in items && item.TierItem? && item.tier == x.0 ensures item.chain == x.1 {
      SourceIsFunctional(source.tiers, (item.tier, item.chain), x);
    }
  }

  /** A run that is cut off anywhere, also between two lineages of one save, un-aligns no tier. */
  lemma CutOffKeepsTiers(source: Source, w: Writer, r: Router, items: seq<Item>, cut: Cut, x: (Tier, Chain))
    requires source.Valid() && x in source.tiers && TierAligned(r, x.0, x.1)
    requires forall item | item in items :: FromSource(source, item)
    ensures TierAligned(SavesTo(w, r, items, cut), x.0, x.1)
  {
    if cut.saves < |items| {
      var before := SaveAll(w, r, items[..cut.saves]);
      SavesKeepTiers(source, w, r, items[..cut.saves], x);
      OneChainPerTier(source, items, x);
      forall p | p in before ensures TierChain(SavesTo(w, r, items, cut)[p], x.0) in {TierChain(before[p], x.0), x.1} {
        SavedTierOnce(w, before, items[cut.saves], x.0, x.1, p);
      }
      TierAlignedMeans(before, x.0, x.1);
      TierAlignedMeans(SavesTo(w, r, items, cut), x.0, x.1);
    } else {
      SavesKeepTiers(source, w, r, items, x);
    }
  }

  lemma SavesKeepTiers(source: Source, w: Writer, r: Router, items: seq<Item>, x: (Tier, Chain))
    requires source.Valid() && x in source.tiers && TierAligned(r, x.0, x.1)
    requires forall item | item in items :: FromSource(source, item)
    ensures TierAligned(SaveAll(w, r, items), x.0, x.1)
  {
    OneChainPerTier(source, items, x);
    SavedTier(w, r, items, x.0, x.1);
    TierAlignedMeans(r, x.0, x.1);
    TierAlignedMeans(SaveAll(w, r, items), x.0, x.1);
  }

  /** A planned save aligns its tier exactly when it covers it. */
  lemma SavedTierAligns(w: Writer, r: Router, items: seq<Item>, t: Tier, c: Chain)
    requires c != [] && TierItem(t, c) in items && !TierAligned(r, t, c)
    requires forall item | item in items :: item.TierItem? && item.tier == t ==> item.chain == c
    ensures TierAligned(SaveAll(w, r, items), t, c) <==> TierCoverable(w, r, t, c)
  {
    SavedTier(w, r, items, t, c);
    TierAlignedMeans(r, t, c);
    TierAlignedMeans(SaveAll(w, r, items), t, c);
  }

  /** One full run aligns a tier exactly when it was aligned before or its save can cover it. */
  lemma RunAlignsTier(source: Source, e: Environment, x: (Tier, Chain))
    requires source.Valid() && x in source.tiers
    ensures TierAligned(Run(source, e).router, x.0, x.1) <==>
      TierAligned(e.router, x.0, x.1) || TierCoverable(e.writer, e.router, x.0, x.1)
  {
    var items := Plan(source, e);
    PlanFromSource(source, e);
    OneChainPerTier(source, items, x);
    TierPlanHolds(source.tiers, e.router);
    PinPlanHolds(source.purposes, e.writer, e.router);
    if TierAligned(e.router, x.0, x.1) {
      SavesKeepTiers(source, e.writer, e.router, items, x);
    } else {
      SavedTierAligns(e.writer, e.router, items, x.0, x.1);
    }
  }

  // ------------------------------------------------------------ stages

  lemma PinAlignedMeans(w: Writer, r: Router, u: Purpose, c: Chain)
    ensures PinAligned(w, r, u, c) <==>
      (forall p | p in r :: HoldsStage(w, r[p], u) ==> PinIs(r[p], u, c)) &&
        (r.Keys == {} || exists p :: p in r && PinIs(r[p], u, c))
  {
    var holding := set p | p in r && HoldsStage(w, r[p], u);
    forall p | p in r ensures p in holding <==> HoldsStage(w, r[p], u) {}
    if holding == {} {
      assert forall p | p in r :: p !in holding;
    } else {
      var p :| p in holding;
    }
  }

  /** What one stage save leaves a lineage holding for a stage. */
  lemma SavedStageOnce(w: Writer, r: Router, item: Item, u: Purpose, c: Chain, p: Policy)
    requires p in r && item.PinItem? && (item.purpose == u ==> item.chain == c)
    ensures HoldsStage(w, Save(w, r, item)[p], u) <==>
      HoldsStage(w, r[p], u) || (item == PinItem(u, c) && p in w.PinReach(u))
    ensures PinIs(Save(w, r, item)[p], u, c) <==> PinIs(r[p], u, c) || (item == PinItem(u, c) && p in w.PinReach(u))
  {
  }

  /** What stage saves of the source's own selections leave a lineage holding for a stage. */
  lemma {:induction false} SavedStage(w: Writer, r: Router, items: seq<Item>, u: Purpose, c: Chain)
    requires forall item | item in items :: item.PinItem? && (item.purpose == u ==> item.chain == c)
    ensures SaveAll(w, r, items).Keys == r.Keys
    ensures forall p | p in r :: HoldsStage(w, SaveAll(w, r, items)[p], u) <==>
      HoldsStage(w, r[p], u) || (PinItem(u, c) in items && p in w.PinReach(u))
    ensures forall p | p in r :: PinIs(SaveAll(w, r, items)[p], u, c) <==>
      PinIs(r[p], u, c) || (PinItem(u, c) in items && p in w.PinReach(u))
  {
    if items != [] {
      var rest, last := items[..|items| - 1], items[|items| - 1];
      SavedStage(w, r, rest, u, c);
      assert PinItem(u, c) in items <==> PinItem(u, c) in rest || last == PinItem(u, c);
      forall p | p in r
        ensures HoldsStage(w, SaveAll(w, r, items)[p], u) <==>
          HoldsStage(w, r[p], u) || (PinItem(u, c) in items && p in w.PinReach(u))
        ensures PinIs(SaveAll(w, r, items)[p], u, c) <==>
          PinIs(r[p], u, c) || (PinItem(u, c) in items && p in w.PinReach(u))
      {
        SavedStageOnce(w, SaveAll(w, r, rest), last, u, c, p);
      }
    }
  }

  /** A save can align the stage: it reaches someone, and everybody beyond its reach who takes
      part already has the wanted pin. */
  predicate PinCoverable(w: Writer, r: Router, u: Purpose, c: Chain) {
    && (exists p :: p in r && p in w.PinReach(u))
    && forall p | p in r && p !in w.PinReach(u) && HoldsStage(w, r[p], u) :: PinIs(r[p], u, c)
  }

  /** A stage that is saved when it is not aligned is aligned exactly when it was or is covered. */
  lemma SavedStageAligns(w: Writer, r: Router, items: seq<Item>, u: Purpose, c: Chain)
    requires forall item | item in items :: item.PinItem? && (item.purpose == u ==> item.chain == c)
    requires PinItem(u, c) in items <==> !PinAligned(w, r, u, c)
    ensures PinAligned(w, SaveAll(w, r, items), u, c) <==> PinAligned(w, r, u, c) || PinCoverable(w, r, u, c)
  {
    SavedStage(w, r, items, u, c);
    PinAlignedMeans(w, r, u, c);
    PinAlignedMeans(w, SaveAll(w, r, items), u, c);
  }

  /** When the tiers are aligned already, one full run aligns a stage exactly when it was
      aligned before or its save can cover it. */
  lemma RunAlignsStage(source: Source, e: Environment, x: (Purpose, Chain))
    requires source.Valid() && x in source.purposes
    requires forall y | y in source.tiers :: TierAligned(e.router, y.0, y.1)
    ensures PinAligned(e.writer, Run(source, e).router, x.0, x.1) <==>
      PinAligned(e.writer, e.router, x.0, x.1) || PinCoverable(e.writer, e.router, x.0, x.1)
  {
    var items := Plan(source, e);
    NoTierToPublish(source.tiers, e.router);
    assert items == PinPlan(source.purposes, e.writer, e.router);
    PinPlanHolds(source.purposes, e.writer, e.router);
    forall item | item in items ensures item.PinItem? && (item.purpose == x.0 ==> item.chain == x.1) {
      SourceIsFunctional(source.purposes, (item.purpose, item.chain), x);
    }
    SavedStageAligns(e.writer, e.router, items, x.0, x.1);
  }

  lemma {:induction false} NoTierToPublish(tiers: seq<(Tier, Chain)>, r: Router)
    requires forall y | y in tiers :: TierAligned(r, y.0, y.1)
    ensures TierPlan(tiers, r) == []
  {
    if tiers != [] {
      NoTierToPublish(tiers[..|tiers| - 1], r);
      assert tiers[|tiers| - 1] in tiers;
    }
  }

  // ------------------------------------------------------------ entries

  /** Alignment of a tier in terms of the lineages' entries. */
  lemma TierEntries(r: Router, t: Tier, c: Chain)
    requires c != []
    ensures TierAligned(r, t, c) <==>
      && (forall p | p in r && t in r[p].tiers && r[p].tiers[t] != [] :: r[p].tiers[t] == c)
      && (r.Keys == {} || exists p :: p in r && t in r[p].tiers && r[p].tiers[t] == c)
  {
    TierAlignedMeans(r, t, c);
    forall p | p in r
      ensures TierChain(r[p], t) == c <==> t in r[p].tiers && r[p].tiers[t] == c
      ensures TierChain(r[p], t) != [] <==> t in r[p].tiers && r[p].tiers[t] != []
    {
    }
  }

  /** Alignment of a stage in terms of the lineages' entries: every lineage with an entry for the stage
      or a chain for its tier has exactly the selected chain as its entry. */
  lemma StageEntries(w: Writer, r: Router, u: Purpose, c: Chain)
    ensures PinAligned(w, r, u, c) <==>
      && (forall p | p in r &&
            (u in r[p].pins || (u in w.tierOf && w.tierOf[u] in r[p].tiers && r[p].tiers[w.tierOf[u]] != [])) ::
            u in r[p].pins && r[p].pins[u] == Explicit(c))
      && (r.Keys == {} || exists p :: p in r && u in r[p].pins && r[p].pins[u] == Explicit(c))
  {
    PinAlignedMeans(w, r, u, c);
    forall p | p in r
      ensures PinIs(r[p], u, c) <==> u in r[p].pins && r[p].pins[u] == Explicit(c)
      ensures HoldsStage(w, r[p], u) <==>
        u in r[p].pins || (u in w.tierOf && w.tierOf[u] in r[p].tiers && r[p].tiers[w.tierOf[u]] != [])
    {
    }
  }

  predicate Declares(l: Lineage, t: Tier) {
    t in l.tiers && l.tiers[t] != []
  }

  /** The lineage has an entry for the stage, or a chain for its tier. */
  predicate TakesPartNow(e: Environment, u: Purpose, p: Policy)
    requires p in e.router
    ensures TakesPartNow(e, u, p) <==>
      || u in e.router[p].pins
      || (u in e.writer.tierOf && Declares(e.router[p], e.writer.tierOf[u]))
  {
    HoldsStage(e.writer, e.router[p], u)
  }

  /** A tier is planned if and only if a lineage declares another chain for it, or none declares any and
      there is a lineage; a stage if and only if a lineage that takes part in it lacks the selected entry,
      or none takes part and there is a lineage; and tiers come before stages. */
  lemma PlanEntries(source: Source, e: Environment)
    requires source.Valid()
    ensures forall x | x in source.tiers :: TierItem(x.0, x.1) in Plan(source, e) <==>
      || (exists p :: p in e.router && x.0 in e.router[p].tiers && e.router[p].tiers[x.0] !in {[], x.1})
      || (e.router.Keys != {} && forall p | p in e.router && x.0 in e.router[p].tiers :: e.router[p].tiers[x.0] == [])
    ensures forall x | x in source.purposes :: PinItem(x.0, x.1) in Plan(source, e) <==>
      || (exists p :: p in e.router && TakesPartNow(e, x.0, p) &&
            !(x.0 in e.router[p].pins && e.router[p].pins[x.0] == Explicit(x.1)))
      || (e.router.Keys != {} && forall p | p in e.router :: !TakesPartNow(e, x.0, p))
    ensures forall i, j | 0 <= i < j < |Plan(source, e)| && Plan(source, e)[j].TierItem? :: Plan(source, e)[i].TierItem?
  {
    TierPlanHolds(source.tiers, e.router);
    PinPlanHolds(source.purposes, e.writer, e.router);
    forall x | x in source.tiers
      ensures !TierAligned(e.router, x.0, x.1) <==>
        || (exists p :: p in e.router && x.0 in e.router[p].tiers && e.router[p].tiers[x.0] !in {[], x.1})
        || (e.router.Keys != {} && forall p | p in e.router && x.0 in e.router[p].tiers :: e.router[p].tiers[x.0] == [])
    {
      TierEntries(e.router, x.0, x.1);
    }
    forall x | x in source.purposes
      ensures !PinAligned(e.writer, e.router, x.0, x.1) <==>
        || (exists p :: p in e.router && TakesPartNow(e, x.0, p) &&
              !(x.0 in e.router[p].pins && e.router[p].pins[x.0] == Explicit(x.1)))
        || (e.router.Keys != {} && forall p | p in e.router :: !TakesPartNow(e, x.0, p))
    {
      StageEntries(e.writer, e.router, x.0, x.1);
    }
  }

  // ------------------------------------------------------------ convergence

  predicate TierFixable(w: Writer, r: Router, x: (Tier, Chain)) {
    TierAligned(r, x.0, x.1) || TierCoverable(w, r, x.0, x.1)
  }

  predicate StageFixable(w: Writer, r: Router, x: (Purpose, Chain)) {
    PinAligned(w, r, x.0, x.1) || PinCoverable(w, r, x.0, x.1)
  }

  /** A tier that one run cannot align, no later run can. */
  lemma UnfixableStays(source: Source, e: Environment, x: (Tier, Chain))
    requires source.Valid() && x in source.tiers && !TierFixable(e.writer, e.router, x)
    ensures !TierFixable(e.writer, Run(source, e).router, x)
  {
    RunAlignsTier(source, e, x);
    PlanFromSource(source, e);
    OneChainPerTier(source, Plan(source, e), x);
    SavedTier(e.writer, e.router, Plan(source, e), x.0, x.1);
  }

  /** The first run saves this tier. */
  predicate TierSaved(source: Source, r: Router, t: Tier) {
    exists y :: y in source.tiers && y.0 == t && !TierAligned(r, y.0, y.1)
  }

  /** The first run saves the stage's tier, and the save reaches the lineage. */
  predicate TierSaveReaches(source: Source, e: Environment, u: Purpose, p: Policy) {
    && u in e.writer.tierOf
    && TierSaved(source, e.router, e.writer.tierOf[u])
    && p in e.writer.TierReach(e.writer.tierOf[u])
  }

  /** The lineage has an entry for the stage that no tier save of the first run drops. */
  predicate KeepsEntry(source: Source, e: Environment, u: Purpose, p: Policy)
    requires p in e.router
  {
    u in e.router[p].pins && !(e.writer.drops && TierSaveReaches(source, e, u, p))
  }

  predicate KeepsPin(source: Source, e: Environment, x: (Purpose, Chain), p: Policy)
    requires p in e.router
  {
    KeepsEntry(source, e, x.0, p) && PinIs(e.router[p], x.0, x.1)
  }

  /** The lineage will be a party to the stage: by an entry that stays, by a tier that it declares,
      or by a tier save of the first run. */
  predicate TakesPart(source: Source, e: Environment, u: Purpose, p: Policy)
    requires p in e.router
  {
    || KeepsEntry(source, e, u, p)
    || TierSaveReaches(source, e, u, p)
    || (u in e.writer.tierOf && TierChain(e.router[p], e.writer.tierOf[u]) != [])
  }

  /** Whoever will be a party to the stage beyond the reach of its save keeps the wanted pin, and
      somebody is reached or keeps it. */
  predicate StageWithinReach(source: Source, e: Environment, x: (Purpose, Chain)) {
    && (forall p | p in e.router && p !in e.writer.PinReach(x.0) && TakesPart(source, e, x.0, p) ::
      KeepsPin(source, e, x, p))
    && (e.router.Keys == {} || exists p :: p in e.router && (p in e.writer.PinReach(x.0) || KeepsPin(source, e, x, p)))
  }

  predicate SavesTier(items: seq<Item>, t: Tier) {
    exists item :: item in items && item.TierItem? && item.tier == t
  }

  /** Beyond the reach of a stage's save an entry stays as it is, unless a tier save drops it. */
  lemma {:induction false} BeyondPinReach(w: Writer, r: Router, items: seq<Item>, p: Policy, u: Purpose)
    requires p in r && p !in w.PinReach(u)
    ensures var (after, dropped) :=
      (SaveAll(w, r, items),
       w.drops && u in w.tierOf && p in w.TierReach(w.tierOf[u]) && SavesTier(items, w.tierOf[u]));
      && p in after && (u in after[p].pins <==> u in r[p].pins && !dropped)
      && (u in after[p].pins ==> after[p].pins[u] == r[p].pins[u])
  {
    if items != [] {
      var rest, last := items[..|items| - 1], items[|items| - 1];
      BeyondPinReach(w, r, rest, p, u);
      assert forall t :: SavesTier(items, t) <==> SavesTier(rest, t) || (last.TierItem? && last.tier == t) by {
        assert items == rest + [last];
      }
    }
  }

  lemma {:induction false} SaveAllKeys(w: Writer, r: Router, items: seq<Item>)
    ensures SaveAll(w, r, items).Keys == r.Keys
  {
    if items != [] {
      SaveAllKeys(w, r, items[..|items| - 1]);
    }
  }

  lemma PlanSavesTier(source: Source, e: Environment, t: Tier)
    ensures SavesTier(Plan(source, e), t) <==> TierSaved(source, e.router, t)
  {
    TierPlanHolds(source.tiers, e.router);
    PinPlanHolds(source.purposes, e.writer, e.router);
    if y :| y in source.tiers && y.0 == t && !TierAligned(e.router, y.0, y.1) {
      assert TierItem(y.0, y.1) in Plan(source, e);
    }
    if item :| item in Plan(source, e) && item.TierItem? && item.tier == t {
      assert item in TierPlan(source.tiers, e.router);
      var y := (item.tier, item.chain);
      assert TierItem(y.0, y.1) in TierPlan(source.tiers, e.router) && y in source.tiers;
    }
  }

  /** Whether a lineage declares the tier after the first run. */
  lemma DeclaresAfterRun(source: Source, e: Environment, t: Tier, p: Policy)
    requires source.Valid() && p in e.router
    ensures p in Run(source, e).router
    ensures TierChain(Run(source, e).router[p], t) != [] <==>
      TierChain(e.router[p], t) != [] || (TierSaved(source, e.router, t) && p in e.writer.TierReach(t))
  {
    var items := Plan(source, e);
    PlanSavesTier(source, e, t);
    PlanFromSource(source, e);
    if TierSaved(source, e.router, t) {
      var y :| y in source.tiers && y.0 == t && !TierAligned(e.router, y.0, y.1);
      OneChainPerTier(source, items, y);
      TierPlanHolds(source.tiers, e.router);
      assert TierItem(t, y.1) in items;
      SavedTier(e.writer, e.router, items, t, y.1);
    } else {
      SavedTier(e.writer, e.router, items, t, []);
    }
  }

  /** What the first run makes of a lineage beyond the reach of the stage's save. */
  lemma BeyondReachAfterRun(source: Source, e: Environment, x: (Purpose, Chain), p: Policy)
    requires source.Valid() && p in e.router && p !in e.writer.PinReach(x.0)
    ensures p in Run(source, e).router
    ensures HoldsStage(e.writer, Run(source, e).router[p], x.0) <==> TakesPart(source, e, x.0, p)
    ensures PinIs(Run(source, e).router[p], x.0, x.1) <==> KeepsPin(source, e, x, p)
  {
    BeyondPinReach(e.writer, e.router, Plan(source, e), p, x.0);
    if x.0 in e.writer.tierOf {
      PlanSavesTier(source, e, e.writer.tierOf[x.0]);
      DeclaresAfterRun(source, e, e.writer.tierOf[x.0], p);
    }
  }

  /** A stage is aligned or coverable after the first run exactly when it is within reach before
      it. */
  lemma StageFixableAfterRun(source: Source, e: Environment, x: (Purpose, Chain))
    requires source.Valid()
    ensures StageFixable(e.writer, Run(source, e).router, x) <==> StageWithinReach(source, e, x)
  {
    var (w, next) := (e.writer, Run(source, e).router);
    SaveAllKeys(w, e.router, Plan(source, e));
    PinAlignedMeans(w, next, x.0, x.1);
    forall p | p in e.router && p !in w.PinReach(x.0)
      ensures HoldsStage(w, next[p], x.0) <==> TakesPart(source, e, x.0, p)
      ensures PinIs(next[p], x.0, x.1) <==> KeepsPin(source, e, x, p)
    {
      BeyondReachAfterRun(source, e, x, p);
    }
  }

  /** Two full runs align an environment exactly when, before the first of them, every tier is
      aligned or coverable and every stage is within reach. */
  lemma TwoRunsAlign(source: Source, e: Environment)
    requires source.Valid()
    ensures Aligned(source, Run(source, Run(source, e))) <==>
      && (forall x | x in source.tiers :: TierFixable(e.writer, e.router, x))
      && (forall x | x in source.purposes :: StageWithinReach(source, e, x))
  {
    var next := Run(source, e);
    if x :| x in source.tiers && !TierFixable(e.writer, e.router, x) {
      UnfixableStays(source, e, x);
      RunAlignsTier(source, next, x);
    } else {
      forall x | x in source.tiers
        ensures TierAligned(next.router, x.0, x.1) && TierAligned(Run(source, next).router, x.0, x.1)
      {
        RunAlignsTier(source, e, x);
        RunAlignsTier(source, next, x);
      }
      forall x | x in source.purposes
        ensures PinAligned(e.writer, Run(source, next).router, x.0, x.1) <==> StageWithinReach(source, e, x)
      {
        RunAlignsStage(source, next, x);
        StageFixableAfterRun(source, e, x);
      }
    }
  }

  /** The writer reaches what the source selects: each save reaches somebody; beyond its reach no
      lineage declares another chain for the tier; and whoever takes part in a stage beyond the
      reach of the stage's save, now or once the stage's tier has been saved, has the wanted pin
      for good. */
  predicate Covered(source: Source, w: Writer, r: Router) {
    && (forall x | x in source.tiers :: TierCoverable(w, r, x.0, x.1))
    && (forall x | x in source.purposes :: exists p :: p in r && p in w.PinReach(x.0))
    && (forall x, p | x in source.purposes && p in r && p !in w.PinReach(x.0) ::
      BeyondStageReach(source, w, r[p], p, x))
  }

  predicate BeyondStageReach(source: Source, w: Writer, l: Lineage, p: Policy, x: (Purpose, Chain)) {
    var joins :=
      x.0 in w.tierOf && (exists y :: y in source.tiers && y.0 == w.tierOf[x.0]) && p in w.TierReach(w.tierOf[x.0]);
    HoldsStage(w, l, x.0) || joins ==> PinIs(l, x.0, x.1) && !(w.drops && joins)
  }

  /** The same over the entries of the lineages. */
  lemma WhatIsCovered(source: Source, w: Writer, r: Router)
    ensures Covered(source, w, r) <==>
      && (forall x | x in source.tiers ::
            && x.0 in w.tierReach && (exists p :: p in r && p in w.tierReach[x.0])
            && forall p | p in r && p !in w.tierReach[x.0] && x.0 in r[p].tiers :: r[p].tiers[x.0] in [[], x.1])
      && (forall x | x in source.purposes :: x.0 in w.pinReach && exists p :: p in r && p in w.pinReach[x.0])
      && (forall x, p | x in source.purposes && p in r && p !in w.pinReach[x.0] ::
            var saved := && x.0 in w.tierOf && w.tierOf[x.0] in w.tierReach && p in w.tierReach[w.tierOf[x.0]]
                         && exists y :: y in source.tiers && y.0 == w.tierOf[x.0];
            && (x.0 in r[p].pins || saved || (x.0 in w.tierOf && Declares(r[p], w.tierOf[x.0])) ==>
                  x.0 in r[p].pins && r[p].pins[x.0] == Explicit(x.1) && !(w.drops && saved)))
  {
  }

  lemma SaveKeepsCovered(source: Source, w: Writer, r: Router, item: Item)
    requires source.Valid() && Covered(source, w, r) && FromSource(source, item)
    ensures Covered(source, w, Save(w, r, item))
  {
    var r' := Save(w, r, item);
    forall x | x in source.tiers ensures TierCoverable(w, r', x.0, x.1) {
      var p :| p in r && p in w.TierReach(x.0);
      assert p in r' && p in w.TierReach(x.0);
    }
    forall x | x in source.purposes ensures exists p :: p in r' && p in w.PinReach(x.0) {
      var p :| p in r && p in w.PinReach(x.0);
      assert p in r' && p in w.PinReach(x.0);
    }
    forall x, p | x in source.purposes && p in r' && p !in w.PinReach(x.0)
      ensures BeyondStageReach(source, w, r'[p], p, x)
    {
      assert BeyondStageReach(source, w, r[p], p, x);
    }
  }

  /** Runs that are each cut off somewhere. */
  function CutOffRuns(source: Source, e: Environment, cuts: seq<Cut>): Environment {
    if cuts == [] then e
    else
      var before := CutOffRuns(source, e, cuts[..|cuts| - 1]);
      before.(router := SavesTo(before.writer, before.router, Plan(source, before), cuts[|cuts| - 1]))
  }

  /** Each lineage of a save that fails is as before or as saved. */
  lemma PartSaveKeepsCovered(source: Source, w: Writer, r: Router, item: Item, reached: set<Policy>)
    requires source.Valid() && Covered(source, w, r) && FromSource(source, item)
    ensures Covered(source, w, PartSave(w, r, item, reached))
  {
    var (all, part) := (Save(w, r, item), PartSave(w, r, item, reached));
    SaveKeepsCovered(source, w, r, item);
    forall x | x in source.tiers ensures TierCoverable(w, part, x.0, x.1) {
      assert TierCoverable(w, r, x.0, x.1) && TierCoverable(w, all, x.0, x.1);
      var p :| p in r && p in w.TierReach(x.0);
      assert p in part && p in w.TierReach(x.0);
    }
    forall x | x in source.purposes ensures exists p :: p in part && p in w.PinReach(x.0) {
      var p :| p in r && p in w.PinReach(x.0);
      assert p in part && p in w.PinReach(x.0);
    }
    forall x, p | x in source.purposes && p in part && p !in w.PinReach(x.0)
      ensures BeyondStageReach(source, w, part[p], p, x)
    {
      assert BeyondStageReach(source, w, r[p], p, x) && BeyondStageReach(source, w, all[p], p, x);
    }
  }

  lemma {:induction false} SavesKeepCovered(source: Source, w: Writer, r: Router, items: seq<Item>)
    requires source.Valid() && Covered(source, w, r) && forall item | item in items :: FromSource(source, item)
    ensures Covered(source, w, SaveAll(w, r, items))
  {
    if items != [] {
      SavesKeepCovered(source, w, r, items[..|items| - 1]);
      SaveKeepsCovered(source, w, SaveAll(w, r, items[..|items| - 1]), items[|items| - 1]);
    }
  }

  lemma {:induction false} CutOffRunsKeepCovered(source: Source, e: Environment, cuts: seq<Cut>)
    requires source.Valid() && Covered(source, e.writer, e.router)
    ensures CutOffRuns(source, e, cuts).writer == e.writer
    ensures Covered(source, e.writer, CutOffRuns(source, e, cuts).router)
  {
    if cuts != [] {
      var before := CutOffRuns(source, e, cuts[..|cuts| - 1]);
      CutOffRunsKeepCovered(source, e, cuts[..|cuts| - 1]);
      PlanFromSource(source, before);
      var items := Plan(source, before);
      var cut := cuts[|cuts| - 1];
      if cut.saves < |items| {
        var saved := SaveAll(before.writer, before.router, items[..cut.saves]);
        SavesKeepCovered(source, before.writer, before.router, items[..cut.saves]);
        PartSaveKeepsCovered(source, before.writer, saved, items[cut.saves], cut.reached);
      } else {
        SavesKeepCovered(source, before.writer, before.router, items);
      }
    }
  }

  /** After any number of runs cut off anywhere, one full run aligns every tier, a second aligns
      everything, and a third has nothing to publish. */
  lemma RunsConverge(source: Source, e: Environment, cuts: seq<Cut>)
    requires source.Valid() && Covered(source, e.writer, e.router)
    ensures var first := Run(source, CutOffRuns(source, e, cuts));
      && (forall x | x in source.tiers :: TierAligned(first.router, x.0, x.1))
      && Aligned(source, Run(source, first))
      && Plan(source, Run(source, first)) == []
  {
    var start := CutOffRuns(source, e, cuts);
    CutOffRunsKeepCovered(source, e, cuts);
    var whole := [Cut(|Plan(source, start)|, {})];
    CutOffRunsKeepCovered(source, start, whole);
    assert CutOffRuns(source, start, whole[..0]) == start;
    forall x | x in source.tiers ensures TierAligned(Run(source, start).router, x.0, x.1) {
      RunAlignsTier(source, start, x);
    }
    var next := Run(source, start);
    forall x | x in source.purposes ensures StageFixable(next.writer, next.router, x) {
      forall p | p in next.router && p !in next.writer.PinReach(x.0) && HoldsStage(next.writer, next.router[p], x.0)
        ensures PinIs(next.router[p], x.0, x.1)
      {
        assert BeyondStageReach(source, next.writer, next.router[p], p, x);
      }
    }
    forall x | x in source.purposes ensures StageWithinReach(source, start, x) {
      StageFixableAfterRun(source, start, x);
    }
    TwoRunsAlign(source, start);
    AlignedPlansNothing(source, Run(source, next));
  }

  /** The same in terms of the entries, for every lineage and selection: whoever declares a tier has its
      selected chain, and whoever has an entry for a stage or a chain for its tier has exactly the
      selected chain as its entry. */
  lemma ConvergedEntries(source: Source, e: Environment, cuts: seq<Cut>, p: Policy)
    requires source.Valid() && Covered(source, e.writer, e.router)
    requires p in Run(source, Run(source, CutOffRuns(source, e, cuts))).router
    ensures var l := Run(source, Run(source, CutOffRuns(source, e, cuts))).router[p];
      && (forall x | x in source.tiers && x.0 in l.tiers && l.tiers[x.0] != [] :: l.tiers[x.0] == x.1)
      && (forall x | x in source.purposes &&
            (x.0 in l.pins || (x.0 in e.writer.tierOf && Declares(l, e.writer.tierOf[x.0]))) ::
            x.0 in l.pins && l.pins[x.0] == Explicit(x.1))
  {
    RunsConverge(source, e, cuts);
    CutOffRunsKeepCovered(source, e, cuts);
    var end := Run(source, Run(source, CutOffRuns(source, e, cuts)));
    forall x | x in source.tiers
      ensures x.0 in end.router[p].tiers && end.router[p].tiers[x.0] != [] ==> end.router[p].tiers[x.0] == x.1
    {
      TierEntries(end.router, x.0, x.1);
    }
    forall x | x in source.purposes &&
        (x.0 in end.router[p].pins || (x.0 in e.writer.tierOf && Declares(end.router[p], e.writer.tierOf[x.0])))
      ensures x.0 in end.router[p].pins && end.router[p].pins[x.0] == Explicit(x.1)
    {
      StageEntries(end.writer, end.router, x.0, x.1);
    }
  }

  /** One run is not enough, whether or not a tier save drops pins: a lineage that the first run
      brings into the tier becomes a party to the stage and lacks its pin. */
  lemma OneRunIsNotEnough(drops: bool) returns (source: Source, e: Environment)
    ensures source.Valid() && e.writer.drops == drops && Covered(source, e.writer, e.router)
    ensures !Aligned(source, Run(source, e)) && Aligned(source, Run(source, Run(source, e)))
  {
    var w := Writer(map["t" := {"p", "q"}], map["u" := {"p", "q"}], map["u" := "t"], drops);
    var r := map["p" := Lineage(map["t" := ["a"]], map["u" := Explicit(["b"])]), "q" := Lineage(map[], map[])];
    source, e := Source([("t", ["b"])], [("u", ["b"])]), Environment(w, r);
    assert "p" in r && "p" in w.TierReach("t") && "p" in w.PinReach("u");
    assert PinIs(r["p"], "u", ["b"]);
    PinAlignedMeans(w, r, "u", ["b"]);
    NewcomerLacksPin(source, e, ("t", ["b"]), ("u", ["b"]), "q");
    assert CutOffRuns(source, e, []) == e;
    RunsConverge(source, e, []);
  }

  /** A lineage that a needed tier save reaches, with no pin for a stage of the tier and no
      planned save of that stage, leaves the stage unaligned. */
  lemma NewcomerLacksPin(source: Source, e: Environment, x: (Tier, Chain), y: (Purpose, Chain), p: Policy)
    requires source.Valid() && x in source.tiers && source.purposes == [y]
    requires !TierAligned(e.router, x.0, x.1) && PinAligned(e.writer, e.router, y.0, y.1)
    requires y.0 in e.writer.tierOf && e.writer.tierOf[y.0] == x.0
    requires p in e.router && p in e.writer.TierReach(x.0) && y.0 !in e.router[p].pins
    ensures !PinAligned(e.writer, Run(source, e).router, y.0, y.1)
  {
    var items := Plan(source, e);
    TierPlanHolds(source.tiers, e.router);
    PlanFromSource(source, e);
    OneChainPerTier(source, items, x);
    assert source.purposes[..0] == [];
    assert PinPlan(source.purposes, e.writer, e.router) == [];
    SavedTier(e.writer, e.router, items, x.0, x.1);
    TierSavesAddNoPin(e.writer, e.router, items, p, y.0);
    PinAlignedMeans(e.writer, Run(source, e).router, y.0, y.1);
    assert HoldsStage(e.writer, Run(source, e).router[p], y.0);
  }

  lemma {:induction false} TierSavesAddNoPin(w: Writer, r: Router, items: seq<Item>, p: Policy, u: Purpose)
    requires p in r && u !in r[p].pins && forall item | item in items :: item.TierItem?
    ensures p in SaveAll(w, r, items) && u !in SaveAll(w, r, items)[p].pins
  {
    if items != [] {
      TierSavesAddNoPin(w, r, items[..|items| - 1], p, u);
    }
  }

  // ------------------------------------------------------------ the program

  /** The lineages that are behind on a tier. */
  function StaleTier(r: Router, t: Tier, c: Chain): (stale: set<Policy>)
    ensures stale == {} <==> TierAligned(r, t, c)
  {
    var stale := set p | p in TierHolders(r, t) && TierChain(r[p], t) != c;
    assert forall p | p in TierHolders(r, t) :: TierChain(r[p], t) == c || p in stale;
    stale
  }

  /** The lineages that are behind on a stage. */
  function StaleStage(w: Writer, r: Router, u: Purpose, c: Chain): (stale: set<Policy>)
    ensures stale == {} <==> PinAligned(w, r, u, c)
  {
    var stale := set p | p in PurposeHolders(w, r, u) && !PinIs(r[p], u, c);
    assert forall p | p in PurposeHolders(w, r, u) :: PinIs(r[p], u, c) || p in stale;
    stale
  }

  /** How one environment comes out of a run of the program. */
  datatype Status = Unreadable | PublishFailed | PlanPublished

  /** An environment that cannot be read stays as it is; any other gets the prefix of its plan up to
      and into the failing save, and the whole of it when no save fails. */
  predicate Visited(source: Source, e: Environment, readable: bool, failing: Cut, e': Environment, status: Status) {
    match status
    case Unreadable => !readable && e' == e
    case PublishFailed =>
      readable && failing.saves < |Plan(source, e)| && e' == CutOffRuns(source, e, [failing])
    case PlanPublished =>
      readable && failing.saves >= |Plan(source, e)| && e' == CutOffRuns(source, e, [failing]) == Run(source, e)
  }

  /** The environments of one machine. */
  class Machine {
    var environments: seq<Environment>

    method PlanTiers(tiers: seq<(Tier, Chain)>, r: Router) returns (publish: seq<Item>)
      ensures publish == TierPlan(tiers, r)
    {
      publish := [];
      for i := 0 to |tiers|
        invariant publish == TierPlan(tiers[..i], r)
      {
        assert tiers[..i + 1][..i] == tiers[..i];
        if StaleTier(r, tiers[i].0, tiers[i].1) != {} {
          publish := publish + [TierItem(tiers[i].0, tiers[i].1)];
        }
      }
      assert tiers[..|tiers|] == tiers;
    }

    method PlanStages(purposes: seq<(Purpose, Chain)>, w: Writer, r: Router) returns (publish: seq<Item>)
      ensures publish == PinPlan(purposes, w, r)
    {
      publish := [];
      for i := 0 to |purposes|
        invariant publish == PinPlan(purposes[..i], w, r)
      {
        assert purposes[..i + 1][..i] == purposes[..i];
        if StaleStage(w, r, purposes[i].0, purposes[i].1) != {} {
          publish := publish + [PinItem(purposes[i].0, purposes[i].1)];
        }
      }
      assert purposes[..|purposes|] == purposes;
    }

    /** Compare one environment with the source, selection by selection. */
    method PlanEnvironment(source: Source, k: nat) returns (publish: seq<Item>)
      requires k < |environments|
      ensures publish == Plan(source, environments[k])
      // A stage is published if and only if a lineage that takes part in it lacks the selected entry, or
      // none takes part and there is a lineage.
      ensures source.Valid() ==> forall x | x in source.purposes :: PinItem(x.0, x.1) in publish <==>
        var e := environments[k];
        || (exists p :: p in e.router && TakesPartNow(e, x.0, p) &&
              !(x.0 in e.router[p].pins && e.router[p].pins[x.0] == Explicit(x.1)))
        || (e.router.Keys != {} && forall p | p in e.router :: !TakesPartNow(e, x.0, p))
    {
      if source.Valid() {
        PlanEntries(source, environments[k]);
      }
      var tiers := PlanTiers(source.tiers, environments[k].router);
      var stages := PlanStages(source.purposes, environments[k].writer, environments[k].router);
      publish := tiers + stages;
    }

    /** Publish one environment's plan, tiers first; the save at the cut fails, perhaps in part, and
        ends this environment. */
    method ApplyTarget(k: nat, publish: seq<Item>, failing: Cut) returns (failed: bool)
      requires k < |environments|
      modifies this
      ensures failed <==> failing.saves < |publish|
      ensures environments == old(environments)[k := old(environments)[k].(router :=
        SavesTo(old(environments)[k].writer, old(environments)[k].router, publish, failing))]
    {
      failed := false;
      var e := environments[k];
      var i := 0;
      while i < |publish|
        invariant 0 <= i <= |publish| && !failed && i <= failing.saves
        invariant environments == old(environments)[k := e.(router := SaveAll(e.writer, e.router, publish[..i]))]
      {
        var here := environments[k];
        if i == failing.saves {
          environments := environments[k :=
            here.(router := PartSave(here.writer, here.router, publish[i], failing.reached))];
          return true;
        }
        assert publish[..i + 1][..i] == publish[..i];
        environments := environments[k := here.(router := Save(here.writer, here.router, publish[i]))];
        i := i + 1;
      }
      assert publish[..i] == publish;
    }

    /** The plan of one environment, unless it cannot be read. */
    method PlanTarget(source: Source, k: nat, readable: bool) returns (plan: Option<seq<Item>>)
      requires k < |environments|
      ensures plan == if readable then Some(Plan(source, environments[k])) else None
    {
      if !readable { return None; }
      var publish := PlanEnvironment(source, k);
      plan := Some(publish);
    }

    /** The part of one environment in a run of the program. */
    method AlignOne(source: Source, k: nat, plan: Option<seq<Item>>, failing: Cut) returns (status: Status)
      requires k < |environments| && (plan.Some? ==> plan.value == Plan(source, environments[k]))
      modifies this
      ensures |environments| == |old(environments)|
      ensures environments == old(environments)[k := environments[k]]
      ensures Visited(source, old(environments)[k], plan.Some?, failing, environments[k], status)
    {
      if plan.None? { return Unreadable; }
      assert CutOffRuns(source, environments[k], [failing][..0]) == environments[k];
      var failed := ApplyTarget(k, plan.value, failing);
      status := if failed then PublishFailed else PlanPublished;
    }

    /** Plan every environment, then publish to each of them; what cannot be read or fails ends one
        environment and not the others. */
    method Align(source: Source, readable: seq<bool>, failing: seq<Cut>) returns (results: seq<Status>)
      requires |readable| == |failing| == |environments|
      modifies this
      ensures |results| == |environments| == |old(environments)|
      // Each environment is decided by itself: left alone if it cannot be read, and else saved up to its
      // failure, or to the end of its plan.
      ensures forall k | 0 <= k < |environments| ::
        var (e, plan) := (old(environments)[k], Plan(source, old(environments)[k]));
        && (results[k] == Unreadable <==> !readable[k])
        && (results[k] == PublishFailed <==> readable[k] && failing[k].saves < |plan|)
        && environments[k].writer == e.writer
        && environments[k].router == if readable[k] then SavesTo(e.writer, e.router, plan, failing[k]) else e.router
    {
      var plans: seq<Option<seq<Item>>> := [];
      var k := 0;
      while k < |environments|
        invariant 0 <= k <= |environments| == |failing| && |plans| == k && environments == old(environments)
        invariant forall i | 0 <= i < k ::
          plans[i] == if readable[i] then Some(Plan(source, environments[i])) else None
      {
        var plan := PlanTarget(source, k, readable[k]);
        plans := plans + [plan];
        k := k + 1;
      }
      results := [];
      k := 0;
      while k < |environments|
        invariant 0 <= k <= |environments| == |old(environments)| && |results| == k
        invariant forall i | k <= i < |environments| :: environments[i] == old(environments)[i]
        invariant forall i | 0 <= i < k ::
          Visited(source, old(environments)[i], readable[i], failing[i], environments[i], results[i])
      {
        var status := AlignOne(source, k, plans[k], failing[k]);
        results := results + [status];
        k := k + 1;
      }
      forall k | 0 <= k < |environments|
        ensures CutOffRuns(source, old(environments)[k], [failing[k]]) ==
          var e := old(environments)[k]; e.(router := SavesTo(e.writer, e.router, Plan(source, e), failing[k]))
      {
        assert CutOffRuns(source, old(environments)[k], [failing[k]][..0]) == old(environments)[k];
      }
    }
  }
}
