/** Bringing the stored plans to the catalogue of plans that are sold. */
module PlanSync {
  import opened Optional
  import opened JsString

  datatype Plan = Plan(
    name: string, formerNames: seq<string>, priceCents: int, description: string, features: seq<string>)

  /** What the provider sells a plan as: its product, the price to use and the active prices. */
  datatype Offer = Offer(product: string, price: string, activePrices: seq<string>)

  datatype Row = Row(
    id: string, name: string, description: Option<string>, features: seq<string>, priceCents: int,
    yearlyPriceCents: Option<int>, currency: string, interval: string, product: string, price: string,
    yearlyPrice: Option<string>, active: bool)

  // ---- finding and comparing ----

  function First(rows: seq<Row>, matches: Row -> bool): (found: Option<Row>)
    ensures found.Some? ==> found.value in rows && matches(found.value)
    ensures found.None? ==> forall r <- rows :: !matches(r)
  {
    if rows == [] then None
    else
      assert rows == [rows[0]] + rows[1..];
      if matches(rows[0]) then Some(rows[0]) else First(rows[1..], matches)
  }

  predicate HasName(row: Row, plan: Plan) {
    Lowered(row.name) == Lowered(plan.name) || exists n <- plan.formerNames :: Lowered(row.name) == Lowered(n)
  }

  /** The row with the plan's product, else one with its name or a former name and its price. */
  function FindStoredPlan(stored: seq<Row>, plan: Plan, product: string): (found: Option<Row>)
    ensures found.Some? ==> found.value in stored
    ensures (exists r <- stored :: r.product == product) ==> found.Some? && found.value.product == product
  {
    var byProduct := First(stored, (r: Row) => r.product == product);
    if byProduct.Some? then byProduct
    else First(stored, (r: Row) => HasName(r, plan) && r.priceCents == plan.priceCents)
  }

  function Joined(parts: seq<string>): string {
    if parts == [] then [] else if |parts| == 1 then parts[0] else parts[0] + "," + Joined(parts[1..])
  }

  /** The fields to set; a yearly price is only ever cleared, with its amount. */
  datatype Update = Update(
    name: Option<string>, description: Option<string>, features: Option<seq<string>>, priceCents: Option<int>,
    currency: Option<string>, interval: Option<string>, product: Option<string>, price: Option<string>,
    active: Option<bool>, clearYearly: bool)

  function Set<T(==)>(current: T, target: T): Option<T> {
    if current == target then None else Some(target)
  }

  const EUR: string := "EUR"
  const MONTH: string := "month"

  function Changes(row: Row, plan: Plan, offer: Offer): Update {
    Update(
      Set(row.name, plan.name),
      if row.description == Some(plan.description) then None else Some(plan.description),
      if Joined(row.features) == Joined(plan.features) then None else Some(plan.features),
      Set(row.priceCents, plan.priceCents),
      Set(row.currency, EUR),
      Set(row.interval, MONTH),
      Set(row.product, offer.product),
      Set(row.price, offer.price),
      Set(row.active, true),
      row.yearlyPrice.Some? && row.yearlyPrice.value != [] && row.yearlyPrice.value !in offer.activePrices)
  }

  const NOTHING := Update(None, None, None, None, None, None, None, None, None, false)

  function PlanUpdate(row: Option<Row>, plan: Plan, offer: Offer): Option<Update> {
    if row.None? then
      Some(Update(Some(plan.name), Some(plan.description), Some(plan.features), Some(plan.priceCents), Some(EUR),
                  Some(MONTH), Some(offer.product), Some(offer.price), Some(true), false))
    else
      var changed := Changes(row.value, plan, offer);
      if changed == NOTHING then None else Some(changed)
  }

  function Or<T>(o: Option<T>, current: T): T {
    if o.Some? then o.value else current
  }

  function Applied(row: Row, u: Update): Row {
    Row(row.id, Or(u.name, row.name), if u.description.Some? then u.description else row.description,
        Or(u.features, row.features), Or(u.priceCents, row.priceCents),
        if u.clearYearly then None else row.yearlyPriceCents,
        Or(u.currency, row.currency), Or(u.interval, row.interval), Or(u.product, row.product), Or(u.price, row.price),
        if u.clearYearly then None else row.yearlyPrice, Or(u.active, row.active))
  }

  /** The row a created plan gets: the columns that are not set have their defaults. */
  function Created(id: string, u: Update): Row {
    Applied(Row(id, "", None, [], 0, None, EUR, MONTH, "", "", None, true), u)
  }

  /** A row that the sync leaves as it is. */
  predicate Settled(row: Row, plan: Plan, offer: Offer) {
    PlanUpdate(Some(row), plan, offer).None?
  }

  /** What a row that needs no update says: everything of the plan, sold now for its price. */
  predicate Sells(row: Row, plan: Plan, offer: Offer) {
    && row.name == plan.name && row.description == Some(plan.description) && row.priceCents == plan.priceCents
    && Joined(row.features) == Joined(plan.features)
    && row.currency == EUR && row.interval == MONTH && row.active
    && row.product == offer.product && row.price == offer.price
    && (row.yearlyPrice.None? || row.yearlyPrice.value == [] || row.yearlyPrice.value in offer.activePrices)
  }

  lemma SettledIff(row: Row, plan: Plan, offer: Offer)
    ensures Settled(row, plan, offer) <==> Sells(row, plan, offer)
  {
  }

  /** Applying an update settles the row, and the row is then found by the plan's product. */
  lemma UpdateSettles(row: Row, plan: Plan, offer: Offer)
    ensures var u := PlanUpdate(Some(row), plan, offer);
      var after := if u.None? then row else Applied(row, u.value);
      Settled(after, plan, offer) && after.product == offer.product && after.id == row.id
  {
  }

  lemma CreateSettles(id: string, plan: Plan, offer: Offer)
    ensures var after := Created(id, PlanUpdate(None, plan, offer).value);
      Settled(after, plan, offer) && after.product == offer.product && after.id == id
  {
  }

  // ---- the loop ----

  function Written(rows: seq<Row>, id: string, u: Update): (r: seq<Row>)
    ensures |r| == |rows|
    ensures forall i | 0 <= i < |rows| :: r[i] == if rows[i].id == id then Applied(rows[i], u) else rows[i]
  {
    seq(|rows|, i requires 0 <= i < |rows| => if rows[i].id == id then Applied(rows[i], u) else rows[i])
  }

  /** One plan of the catalogue, or none when the provider's side has a problem. The row is looked for in
      what was stored when the run began. */
  function AfterPlan(rows: seq<Row>, stored: seq<Row>, plan: Plan, offer: Option<Offer>, newId: string): seq<Row> {
    if offer.None? then rows
    else
      var found := FindStoredPlan(stored, plan, offer.value.product);
      match PlanUpdate(found, plan, offer.value)
      case None => rows
      case Some(u) => if found.Some? then Written(rows, found.value.id, u) else rows + [Created(newId, u)]
  }

  /** A run of the sync: the catalogue, what the provider has for each plan, and the ids of new rows. */
  datatype Job = Job(catalog: seq<Plan>, offers: seq<Option<Offer>>, newIds: seq<string>)

  ghost predicate JobOk(j: Job, stored: seq<Row>) {
    && |j.catalog| == |j.offers| == |j.newIds|
    && (forall i, k | 0 <= i < k < |j.newIds| :: j.newIds[i] != j.newIds[k])
    && (forall i, r | 0 <= i < |j.newIds| && r in stored :: j.newIds[i] != r.id)
    && (forall i, k | 0 <= i < k < |j.offers| && j.offers[i].Some? && j.offers[k].Some? ::
          j.offers[i].value.product != j.offers[k].value.product)
  }

  function Synced(stored: seq<Row>, j: Job, n: nat): seq<Row>
    requires |j.catalog| == |j.offers| == |j.newIds| && n <= |j.catalog|
  {
    if n == 0 then stored
    else AfterPlan(Synced(stored, j, n - 1), stored, j.catalog[n - 1], j.offers[n - 1], j.newIds[n - 1])
  }

  class PlatformPlans {
    var rows: seq<Row>

    constructor (stored: seq<Row>)
      ensures rows == stored
    {
      rows := stored;
    }

    /** Plans with a problem are left as they are; a dry run changes nothing. */
    method SyncPlanCatalog(j: Job, apply: bool) returns (problems: seq<string>)
      requires |j.catalog| == |j.offers| == |j.newIds|
      modifies this
      ensures rows == if apply then Synced(old(rows), j, |j.catalog|) else old(rows)
      ensures problems == [] <==> forall k | 0 <= k < |j.offers| :: j.offers[k].Some?
    {
      hide FindStoredPlan, PlanUpdate, Written;
      var stored := rows;
      problems := [];
      for k := 0 to |j.catalog|
        invariant rows == if apply then Synced(stored, j, k) else stored
        invariant problems == [] <==> forall i | 0 <= i < k :: j.offers[i].Some?
      {
        var plan := j.catalog[k];
        if j.offers[k].None? {
          problems := problems + [plan.name];
          continue;
        }
        var offer := j.offers[k].value;
        var row := FindStoredPlan(stored, plan, offer.product);
        var update := PlanUpdate(row, plan, offer);
        if update.None? || !apply {
          continue;
        }
        if row.Some? {
          rows := Written(rows, row.value.id, update.value);
        } else {
          rows := rows + [Created(j.newIds[k], update.value)];
        }
      }
    }
  }

  // ---- the second run ----

  ghost predicate TableOk(rows: seq<Row>) {
    && (forall i, k | 0 <= i < k < |rows| :: rows[i].id != rows[k].id)
    && (forall i, k | 0 <= i < k < |rows| :: rows[i].product != rows[k].product)
  }

  /** The row a plan is written to. */
  function Target(stored: seq<Row>, j: Job, k: nat): string
    requires |j.catalog| == |j.offers| == |j.newIds| && k < |j.catalog| && j.offers[k].Some?
  {
    var found := FindStoredPlan(stored, j.catalog[k], j.offers[k].value.product);
    if found.Some? then found.value.id else j.newIds[k]
  }

  /** No two plans are found in one row: what a caller can see before a run. */
  ghost predicate RowsDiffer(stored: seq<Row>, j: Job)
    requires |j.catalog| == |j.offers| == |j.newIds|
  {
    forall i, k | 0 <= i < k < |j.catalog| && j.offers[i].Some? && j.offers[k].Some? ::
      Target(stored, j, i) != Target(stored, j, k)
  }

  /** A run over these rows would write nothing. */
  ghost predicate WritesNothing(rows: seq<Row>, j: Job)
    requires |j.catalog| == |j.offers|
  {
    forall k | 0 <= k < |j.catalog| && j.offers[k].Some? ::
      PlanUpdate(FindStoredPlan(rows, j.catalog[k], j.offers[k].value.product), j.catalog[k], j.offers[k].value).None?
  }

  ghost predicate OneRow(rows: seq<Row>) {
    forall i, k | 0 <= i < k < |rows| :: rows[i].id != rows[k].id
  }

  /** After `n` plans: only a plan's own row has its product; ids are those stored and those made. */
  ghost predicate OnlyTargets(rows: seq<Row>, stored: seq<Row>, j: Job)
    requires |j.catalog| == |j.offers| == |j.newIds|
  {
    forall r, k | r in rows && 0 <= k < |j.catalog| && j.offers[k].Some? && r.product == j.offers[k].value.product ::
      r.id == Target(stored, j, k)
  }

  ghost predicate IdsOk(rows: seq<Row>, stored: seq<Row>, j: Job, n: nat)
    requires |j.catalog| == |j.offers| == |j.newIds| && n <= |j.catalog|
  {
    && OneRow(rows)
    && (forall r <- rows :: (exists s <- stored :: s.id == r.id) || (exists i | 0 <= i < n :: j.newIds[i] == r.id))
  }

  /** Plans done are settled, and rows of no plan done are as they were. */
  ghost predicate Done(rows: seq<Row>, stored: seq<Row>, j: Job, n: nat)
    requires |j.catalog| == |j.offers| == |j.newIds| && n <= |j.catalog|
  {
    && (forall k | 0 <= k < n && j.offers[k].Some? ::
          exists r <- rows :: r.id == Target(stored, j, k) && r.product == j.offers[k].value.product
                              && Settled(r, j.catalog[k], j.offers[k].value))
    && (forall s <- stored | forall k | 0 <= k < n && j.offers[k].Some? :: Target(stored, j, k) != s.id :: s in rows)
  }

  lemma StoredOnlyTargets(stored: seq<Row>, j: Job)
    requires TableOk(stored) && JobOk(j, stored)
    ensures OnlyTargets(stored, stored, j)
  {
    forall r, k | r in stored && 0 <= k < |j.catalog| && j.offers[k].Some? && r.product == j.offers[k].value.product
      ensures r.id == Target(stored, j, k)
    {
      var found := FindStoredPlan(stored, j.catalog[k], j.offers[k].value.product).value;
      var a :| 0 <= a < |stored| && stored[a] == r;
      var b :| 0 <= b < |stored| && stored[b] == found;
    }
  }

  lemma PlanKeepsTargets(rows: seq<Row>, stored: seq<Row>, j: Job, n: nat)
    requires JobOk(j, stored) && n < |j.catalog| && OnlyTargets(rows, stored, j)
    ensures OnlyTargets(AfterPlan(rows, stored, j.catalog[n], j.offers[n], j.newIds[n]), stored, j)
  {
    hide FindStoredPlan;
    var after := AfterPlan(rows, stored, j.catalog[n], j.offers[n], j.newIds[n]);
    forall r, k | r in after && 0 <= k < |j.catalog| && j.offers[k].Some? && r.product == j.offers[k].value.product
      ensures r.id == Target(stored, j, k)
    {
      if r !in rows {
        assert j.offers[n].Some?;
        var i :| 0 <= i < |after| && after[i] == r;
        if i < |rows| { assert rows[i] in rows; }
      }
    }
  }

  lemma PlanKeepsIds(rows: seq<Row>, stored: seq<Row>, j: Job, n: nat)
    requires JobOk(j, stored) && n < |j.catalog| && IdsOk(rows, stored, j, n)
    ensures IdsOk(AfterPlan(rows, stored, j.catalog[n], j.offers[n], j.newIds[n]), stored, j, n + 1)
  {
    hide FindStoredPlan, PlanUpdate;
    var after := AfterPlan(rows, stored, j.catalog[n], j.offers[n], j.newIds[n]);
    forall i | 0 <= i < |after|
      ensures i < |rows| ==> after[i].id == rows[i].id
      ensures i >= |rows| ==> i == |rows| && after[i].id == j.newIds[n]
    {
    }
    forall r <- after
      ensures (exists s <- stored :: s.id == r.id) || (exists i | 0 <= i < n + 1 :: j.newIds[i] == r.id)
    {
      var i :| 0 <= i < |after| && after[i] == r;
      if i < |rows| { assert rows[i] in rows; }
    }
    assert forall r <- rows :: r.id != j.newIds[n];
    assert forall i | 0 <= i < |rows| :: rows[i] in rows;
  }

  lemma WrittenHas(rows: seq<Row>, id: string, u: Update, r: Row)
    requires r in rows
    ensures (if r.id == id then Applied(r, u) else r) in Written(rows, id, u)
  {
    var i :| 0 <= i < |rows| && rows[i] == r;
    assert Written(rows, id, u)[i] == if r.id == id then Applied(r, u) else r;
  }

  /** A row of another plan, or of none, is left where it is. */
  lemma OthersStay(rows: seq<Row>, stored: seq<Row>, j: Job, n: nat, r: Row)
    requires JobOk(j, stored) && n < |j.catalog| && r in rows
    requires j.offers[n].Some? ==> r.id != Target(stored, j, n)
    ensures r in AfterPlan(rows, stored, j.catalog[n], j.offers[n], j.newIds[n])
  {
    hide FindStoredPlan, PlanUpdate, Written;
    if j.offers[n].Some? {
      var plan, offer := j.catalog[n], j.offers[n].value;
      var found := FindStoredPlan(stored, plan, offer.product);
      var update := PlanUpdate(found, plan, offer);
      if found.Some? && update.Some? { WrittenHas(rows, found.value.id, update.value, r); }
    }
  }

  /** The plan's own row is settled, when it was not yet written to. */
  lemma OwnSettles(rows: seq<Row>, stored: seq<Row>, j: Job, n: nat)
    requires JobOk(j, stored) && n < |j.catalog| && j.offers[n].Some?
    requires var found := FindStoredPlan(stored, j.catalog[n], j.offers[n].value.product);
      found.Some? ==> found.value in rows
    ensures SettledIn(AfterPlan(rows, stored, j.catalog[n], j.offers[n], j.newIds[n]), stored, j, n)
  {
    hide FindStoredPlan, PlanUpdate, Written, Settled;
    var plan, offer := j.catalog[n], j.offers[n].value;
    var found := FindStoredPlan(stored, plan, offer.product);
    var update := PlanUpdate(found, plan, offer);
    var after := AfterPlan(rows, stored, plan, j.offers[n], j.newIds[n]);
    if found.Some? {
      UpdateSettles(found.value, plan, offer);
      if update.Some? {
        WrittenHas(rows, found.value.id, update.value, found.value);
        assert Applied(found.value, update.value) in after;
      }
    } else {
      CreateSettles(j.newIds[n], plan, offer);
      UpdateOfNone(plan, offer);
      assert after[|rows|] == Created(j.newIds[n], update.value);
    }
  }

  lemma UpdateOfNone(plan: Plan, offer: Offer)
    ensures PlanUpdate(None, plan, offer).Some?
  {
  }

  ghost predicate SettledIn(rows: seq<Row>, stored: seq<Row>, j: Job, k: nat)
    requires |j.catalog| == |j.offers| == |j.newIds| && k < |j.catalog| && j.offers[k].Some?
  {
    exists r <- rows :: r.id == Target(stored, j, k) && r.product == j.offers[k].value.product
                        && Settled(r, j.catalog[k], j.offers[k].value)
  }

  lemma PlanKeepsDone(rows: seq<Row>, stored: seq<Row>, j: Job, n: nat)
    requires JobOk(j, stored) && n < |j.catalog| && RowsDiffer(stored, j) && Done(rows, stored, j, n)
    ensures Done(AfterPlan(rows, stored, j.catalog[n], j.offers[n], j.newIds[n]), stored, j, n + 1)
  {
    hide AfterPlan, FindStoredPlan, Settled;
    var after := AfterPlan(rows, stored, j.catalog[n], j.offers[n], j.newIds[n]);
    if j.offers[n].Some? {
      var found := FindStoredPlan(stored, j.catalog[n], j.offers[n].value.product);
      if found.Some? {
        forall k | 0 <= k < n && j.offers[k].Some? ensures Target(stored, j, k) != found.value.id {
          assert Target(stored, j, k) != Target(stored, j, n);
        }
      }
      OwnSettles(rows, stored, j, n);
    }
    forall k | 0 <= k < n + 1 && j.offers[k].Some? ensures SettledIn(after, stored, j, k) {
      if k < n {
        assert SettledIn(rows, stored, j, k);
        var r :| r in rows && r.id == Target(stored, j, k) && r.product == j.offers[k].value.product
                 && Settled(r, j.catalog[k], j.offers[k].value);
        if j.offers[n].Some? { assert Target(stored, j, k) != Target(stored, j, n); }
        OthersStay(rows, stored, j, n, r);
      }
    }
    forall s <- stored | forall k | 0 <= k < n + 1 && j.offers[k].Some? :: Target(stored, j, k) != s.id
      ensures s in after
    {
      assert forall k | 0 <= k < n && j.offers[k].Some? :: Target(stored, j, k) != s.id;
      OthersStay(rows, stored, j, n, s);
    }
  }

  lemma {:induction false} RunKeeps(stored: seq<Row>, j: Job, n: nat)
    requires TableOk(stored) && JobOk(j, stored) && n <= |j.catalog|
    ensures var rows := Synced(stored, j, n);
      OnlyTargets(rows, stored, j) && IdsOk(rows, stored, j, n) && (RowsDiffer(stored, j) ==> Done(rows, stored, j, n))
  {
    hide AfterPlan, FindStoredPlan, Settled, RowsDiffer, OnlyTargets, IdsOk, Done, TableOk;
    if n == 0 {
      StoredOnlyTargets(stored, j);
      StoredIsDone(stored, j);
    } else {
      RunKeeps(stored, j, n - 1);
      var rows := Synced(stored, j, n - 1);
      PlanKeepsTargets(rows, stored, j, n - 1);
      PlanKeepsIds(rows, stored, j, n - 1);
      if RowsDiffer(stored, j) { PlanKeepsDone(rows, stored, j, n - 1); }
    }
  }

  lemma StoredIsDone(stored: seq<Row>, j: Job)
    requires TableOk(stored) && JobOk(j, stored)
    ensures IdsOk(stored, stored, j, 0) && Done(stored, stored, j, 0)
  {
  }

  lemma SameId(rows: seq<Row>, a: Row, b: Row)
    requires OneRow(rows) && a in rows && b in rows && a.id == b.id
    ensures a == b
  {
    var i :| 0 <= i < |rows| && rows[i] == a;
    var k :| 0 <= k < |rows| && rows[k] == b;
  }

  lemma SettledHasProduct(row: Row, plan: Plan, offer: Offer)
    requires Settled(row, plan, offer)
    ensures row.product == offer.product
  {
  }

  /** With the provider's side unchanged, a second run over what the first left, in whatever order the
      database returns it, writes nothing: exactly when no two plans were found in one row. */
  lemma SecondRunWritesNothingIff(stored: seq<Row>, j: Job, again: seq<Row>)
    requires TableOk(stored) && JobOk(j, stored)
    requires forall r :: r in again <==> r in Synced(stored, j, |j.catalog|)
    ensures WritesNothing(again, j) <==> RowsDiffer(stored, j)
  {
    var after := Synced(stored, j, |j.catalog|);
    RunKeeps(stored, j, |j.catalog|);
    if RowsDiffer(stored, j) { DifferThenNothing(stored, j, after, again); }
    if WritesNothing(again, j) { NothingThenDiffer(stored, j, after, again); }
  }

  lemma DifferThenNothing(stored: seq<Row>, j: Job, after: seq<Row>, again: seq<Row>)
    requires JobOk(j, stored) && OnlyTargets(after, stored, j) && OneRow(after) && Done(after, stored, j, |j.catalog|)
    requires forall r :: r in again <==> r in after
    ensures WritesNothing(again, j)
  {
    hide PlanUpdate;
    forall k | 0 <= k < |j.catalog| && j.offers[k].Some?
      ensures var plan, offer := j.catalog[k], j.offers[k].value;
        PlanUpdate(FindStoredPlan(again, plan, offer.product), plan, offer).None?
    {
      var plan, offer := j.catalog[k], j.offers[k].value;
      assert SettledIn(after, stored, j, k);
      var r :| r in after && r.id == Target(stored, j, k) && r.product == offer.product && Settled(r, plan, offer);
      assert r in again;
      var found := FindStoredPlan(again, plan, offer.product);
      assert found.value in after && found.value.id == Target(stored, j, k);
      SameId(after, r, found.value);
    }
  }

  lemma NothingThenDiffer(stored: seq<Row>, j: Job, after: seq<Row>, again: seq<Row>)
    requires JobOk(j, stored) && OnlyTargets(after, stored, j) && OneRow(after)
    requires forall r :: r in again <==> r in after
    requires WritesNothing(again, j)
    ensures RowsDiffer(stored, j)
  {
    hide PlanUpdate, FindStoredPlan;
    forall i, k | 0 <= i < k < |j.catalog| && j.offers[i].Some? && j.offers[k].Some?
      ensures Target(stored, j, i) != Target(stored, j, k)
    {
      var a := OwnRow(stored, j, after, again, i);
      var b := OwnRow(stored, j, after, again, k);
      if a.id == b.id { SameId(after, a, b); }
    }
  }

  lemma OwnRow(stored: seq<Row>, j: Job, after: seq<Row>, again: seq<Row>, k: nat) returns (r: Row)
    requires JobOk(j, stored) && OnlyTargets(after, stored, j) && k < |j.catalog| && j.offers[k].Some?
    requires forall r :: r in again <==> r in after
    requires WritesNothing(again, j)
    ensures r in after && r.id == Target(stored, j, k) && r.product == j.offers[k].value.product
  {
    var plan, offer := j.catalog[k], j.offers[k].value;
    var found := FindStoredPlan(again, plan, offer.product);
    assert PlanUpdate(found, plan, offer).None?;
    r := found.value;
    SettledHasProduct(r, plan, offer);
  }

  /** When no two plans are found in one row, a run leaves each plan one row of its own, which sells it. */
  lemma RunReachesCatalog(stored: seq<Row>, j: Job, k: nat) returns (r: Row)
    requires TableOk(stored) && JobOk(j, stored) && RowsDiffer(stored, j) && k < |j.catalog| && j.offers[k].Some?
    ensures var rows := Synced(stored, j, |j.catalog|);
      && r in rows && Sells(r, j.catalog[k], j.offers[k].value)
      && (forall q <- rows :: q.product == j.offers[k].value.product ==> q == r)
  {
    RunKeeps(stored, j, |j.catalog|);
    var rows := Synced(stored, j, |j.catalog|);
    var plan, offer := j.catalog[k], j.offers[k].value;
    assert SettledIn(rows, stored, j, k);
    r :| r in rows && r.id == Target(stored, j, k) && r.product == offer.product && Settled(r, plan, offer);
    SettledIff(r, plan, offer);
    forall q <- rows ensures q.product == offer.product ==> q == r {
      if q.product == offer.product { SameId(rows, q, r); }
    }
  }

  // ---- two plans can be found in one row ----

  /** A row with one plan's product and the other's name and price. */
  lemma RowsCanMeet() returns (stored: seq<Row>, j: Job)
    ensures TableOk(stored) && JobOk(j, stored) && !RowsDiffer(stored, j)
  {
    var a, b := Plan("a", [], 499, "", []), Plan("b", [], 999, "", []);
    var row := Row("r", b.name, None, [], b.priceCents, None, EUR, MONTH, "x", "p", None, true);
    stored := [row];
    j := Job([a, b], [Some(Offer("x", "p", [])), Some(Offer("y", "q", []))], ["1", "2"]);
    assert row in stored && HasName(row, b);
    assert FindStoredPlan(stored, a, "x") == Some(row);
    assert FindStoredPlan(stored, b, "y") == Some(row);
    assert Target(stored, j, 0) == Target(stored, j, 1);
  }
}
