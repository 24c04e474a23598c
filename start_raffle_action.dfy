/**
 * Starting the raffles that are due: read the ids of the active products whose raffle date has
 * come, and run one winner selection per id, in the order read.
 */
module StartRaffleAction {
  import opened Seqs
  import opened Schema
  import opened Scopes
  import opened PaymentService
  import OrderStatus
  import RaffleStatus
  import ProductRepository
  import RaffleEntryRepository
  import SelectWinnersAction

  type Oracle = SelectWinnersAction.Oracle
  type SelectOutcome = SelectWinnersAction.SelectOutcome

  /** The ids read, the outcome of the selection run for each, and the state after the last. */
  datatype Run = Run(productIds: seq<int>, outcomes: seq<SelectOutcome>, db: Db)

  /** One selection per id, in order, each on the state the previous one left. */
  function SelectEach(db: Db, productIds: seq<int>, now: int, oracle: Oracle): (r: Run)
    requires Linked(db)
    ensures r.productIds == productIds && |r.outcomes| == |productIds|
    ensures Linked(r.db)
    decreases |productIds|
  {
    if productIds == [] then
      Run([], [], db)
    else
      var selection := SelectWinnersAction.Handle(db, productIds[0], now, oracle);
      var rest := SelectEach(selection.db, productIds[1..], now, oracle);
      Run(productIds, [selection.outcome] + rest.outcomes, rest.db)
  }

  /**
   * Reads the eligible product ids in the order `rowOrder` the database returns rows in; with
   * none it stops, otherwise it runs one selection per id.
   */
  function Handle(db: Db, rowOrder: seq<int>, now: int, oracle: Oracle): (r: Run)
    requires Linked(db)
    ensures Enumerates(rowOrder, db.products.Keys) ==>
      && NoDuplicates(r.productIds)
      && forall q :: q in r.productIds <==> q in db.products && IsActive(db.products[q]) && ToRaffle(db.products[q], now)
    ensures |r.outcomes| == |r.productIds|
    ensures r.productIds == [] ==> r.outcomes == [] && r.db == db
    ensures Linked(r.db)
  {
    var productIds := ProductRepository.GetActiveProductIdsToRaffle(db, rowOrder, now);
    assert Enumerates(rowOrder, db.products.Keys) ==> NoDuplicates(productIds) by {
      if Enumerates(rowOrder, db.products.Keys) {
        ProductRepository.RaffleListIsExact(db, rowOrder, now);
      }
    }
    if |productIds| == 0 then
      Run(productIds, [], db)
    else
      SelectEach(db, productIds, now, oracle)
  }

  /** Outcome k is the selection of product k. */
  lemma {:induction false} SelectEachRunsEachSelection(db: Db, productIds: seq<int>, now: int, oracle: Oracle)
    requires Linked(db) && productIds != []
    ensures var r := SelectEach(db, productIds, now, oracle);
      var first := SelectWinnersAction.Handle(db, productIds[0], now, oracle);
      && r.outcomes[0] == first.outcome
      && r.db == SelectEach(first.db, productIds[1..], now, oracle).db
  {
  }

  /** A run keeps every constraint and every order settled. */
  lemma {:induction false} SelectEachPreservesConsistency(db: Db, productIds: seq<int>, now: int, oracle: Oracle)
    requires Consistent(db)
    ensures Consistent(SelectEach(db, productIds, now, oracle).db)
    decreases |productIds|
  {
    if productIds != [] {
      SelectWinnersAction.HandlePreservesConsistency(db, productIds[0], now, oracle);
      var selection := SelectWinnersAction.Handle(db, productIds[0], now, oracle);
      SelectEachPreservesConsistency(selection.db, productIds[1..], now, oracle);
    }
  }

  lemma HandlePreservesConsistency(db: Db, rowOrder: seq<int>, now: int, oracle: Oracle)
    requires Consistent(db)
    ensures Consistent(Handle(db, rowOrder, now, oracle).db)
  {
    var productIds := ProductRepository.GetActiveProductIdsToRaffle(db, rowOrder, now);
    if |productIds| != 0 {
      SelectEachPreservesConsistency(db, productIds, now, oracle);
    }
  }

  /** The products a run draws for, judged on the state before the run. */
  ghost function DrawnProducts(db: Db, productIds: seq<int>, now: int): set<int> {
    set q | q in productIds && SelectWinnersAction.Drawing(db, q, now)
  }

  /** The ids of a list that a condition keeps are its head, if kept, and those kept of its tail by a condition agreeing there. */
  lemma KeptSplit(ids: seq<int>, keep: int -> bool, keep': int -> bool)
    requires ids != []
    requires forall q :: q in ids[1..] ==> keep'(q) == keep(q)
    ensures (set q | q in ids && keep(q)) ==
      (if keep(ids[0]) then {ids[0]} else {}) + (set q | q in ids[1..] && keep'(q))
  {
    var all := set q | q in ids && keep(q);
    var head: set<int> := if keep(ids[0]) then {ids[0]} else {};
    var rest := set q | q in ids[1..] && keep'(q);
    forall x | x in all
      ensures x in head + rest
    {
      if x != ids[0] {
        var j :| 0 <= j < |ids| && ids[j] == x;
        assert ids[1..][j - 1] == x;
      }
    }
    forall x | x in head + rest
      ensures x in all
    {
      if x in rest {
        var j :| 0 <= j < |ids[1..]| && ids[1..][j] == x;
        assert ids[j + 1] == x;
      }
    }
  }

  /** The products drawn for are the first, if its selection draws, and those drawn for after it. */
  lemma DrawnProductsSplit(db: Db, db': Db, productIds: seq<int>, now: int)
    requires productIds != []
    requires forall q :: q in productIds[1..] ==>
      SelectWinnersAction.Drawing(db', q, now) == SelectWinnersAction.Drawing(db, q, now)
    ensures DrawnProducts(db, productIds, now) ==
      (if SelectWinnersAction.Drawing(db, productIds[0], now) then {productIds[0]} else {}) +
      DrawnProducts(db', productIds[1..], now)
  {
    var keep := q => SelectWinnersAction.Drawing(db, q, now);
    var keep' := q => SelectWinnersAction.Drawing(db', q, now);
    KeptSplit(productIds, keep, keep');
    DrawnProductsKept(db, productIds, now, keep);
    DrawnProductsKept(db', productIds[1..], now, keep');
  }

  /** The products drawn for are those of the list that a condition agreeing with drawing keeps. */
  lemma DrawnProductsKept(db: Db, productIds: seq<int>, now: int, keep: int -> bool)
    requires forall q :: keep(q) == SelectWinnersAction.Drawing(db, q, now)
    ensures DrawnProducts(db, productIds, now) == set q | q in productIds && keep(q)
  {
    var kept := set q | q in productIds && keep(q);
    forall x
      ensures x in DrawnProducts(db, productIds, now) <==> x in kept
    {
    }
  }

  /**
   * Over distinct ids, a run changes only the products whose selection draws, and their entries;
   * whether a later selection draws is not affected by the ones before it.
   */
  lemma {:induction false} SelectEachConfined(db: Db, productIds: seq<int>, now: int, oracle: Oracle)
    requires Linked(db) && NoDuplicates(productIds)
    ensures SelectWinnersAction.Confined(db, SelectEach(db, productIds, now, oracle).db,
                                         DrawnProducts(db, productIds, now), oracle)
    decreases |productIds|
  {
    if productIds == [] {
      assert db.orders[..|db.orders|] == db.orders;
    } else {
      var q := productIds[0];
      var selection := SelectWinnersAction.Handle(db, q, now, oracle);
      var first: set<int> := if SelectWinnersAction.Drawing(db, q, now) then {q} else {};
      SelectWinnersAction.HandleConfined(db, q, now, oracle);
      var tail := productIds[1..];
      TailNoDuplicates(productIds);
      SelectEachConfined(selection.db, tail, now, oracle);
      forall q' | q' in tail
        ensures SelectWinnersAction.Drawing(selection.db, q', now) == SelectWinnersAction.Drawing(db, q', now)
      {
        var j :| 0 <= j < |tail| && tail[j] == q';
        assert productIds[j + 1] == q';
        SelectWinnersAction.UntouchedProductDrawsAlike(db, selection.db, first, oracle, q', now);
      }
      DrawnProductsSplit(db, selection.db, productIds, now);
      SelectWinnersAction.ConfinedTransitive(db, selection.db, SelectEach(db, productIds, now, oracle).db,
                                             first, DrawnProducts(selection.db, tail, now), oracle);
    }
  }

  /**
   * Only the products whose selection draws change: every other product, whether inactive, not
   * yet due, out of stock or without pending entries, keeps its row and its entries and gets no
   * order, and every order the run records is completed, paid, and for a drawn product.
   */
  lemma OnlyDrawnProductsChange(db: Db, rowOrder: seq<int>, now: int, oracle: Oracle)
    requires Linked(db) && Enumerates(rowOrder, db.products.Keys)
    ensures SelectWinnersAction.Confined(db, Handle(db, rowOrder, now, oracle).db,
                                         (set q | q in db.products && SelectWinnersAction.Drawing(db, q, now)), oracle)
  {
    var productIds := ProductRepository.GetActiveProductIdsToRaffle(db, rowOrder, now);
    ProductRepository.RaffleListIsExact(db, rowOrder, now);
    assert DrawnProducts(db, productIds, now) == (set q | q in db.products && SelectWinnersAction.Drawing(db, q, now));
    if |productIds| == 0 {
      assert db.orders[..|db.orders|] == db.orders;
    } else {
      SelectEachConfined(db, productIds, now, oracle);
    }
  }

  /** How many of `orders` are for the product. */
  function CountOf(orders: seq<Order>, productId: int): (n: nat)
    ensures n <= |orders|
  {
    if orders == [] then 0 else (if orders[0].productId == productId then 1 else 0) + CountOf(orders[1..], productId)
  }

  lemma {:induction false} CountOfAppend(a: seq<Order>, b: seq<Order>, productId: int)
    ensures CountOf(a + b, productId) == CountOf(a, productId) + CountOf(b, productId)
    decreases |a|
  {
    if a == [] {
      assert a + b == b;
    } else {
      assert (a + b)[0] == a[0] && (a + b)[1..] == a[1..] + b;
      CountOfAppend(a[1..], b, productId);
    }
  }

  /** Counting orders of which all, or none, are for the product. */
  lemma {:induction false} CountOfUniform(orders: seq<Order>, productId: int)
    ensures (forall i :: 0 <= i < |orders| ==> orders[i].productId == productId) ==> CountOf(orders, productId) == |orders|
    ensures (forall i :: 0 <= i < |orders| ==> orders[i].productId != productId) ==> CountOf(orders, productId) == 0
    decreases |orders|
  {
    if orders != [] {
      CountOfUniform(orders[1..], productId);
    }
  }

  /**
   * From `db` to `db'` the product was raffled with `drawn` as its draw: one unit of stock went
   * for, one winner and one order of the product were made for, each drawn entry that was paid.
   */
  ghost predicate Raffled(db: Db, db': Db, productId: int, drawn: seq<int>, oracle: Oracle) {
    var paid := SelectWinnersAction.PaidCount(drawn, oracle);
    && productId in db.products && productId in db'.products
    && db'.products[productId] == db.products[productId].(qty := db.products[productId].qty - paid)
    && (forall id :: id in db.entries && db.entries[id].productId == productId ==>
          && id in db'.entries
          && db'.entries[id] == if id in drawn && Pays(oracle.payment(id))
                                then SelectWinnersAction.Promoted(db.entries[id]) else db.entries[id])
    && |db.orders| <= |db'.orders| && db'.orders[..|db.orders|] == db.orders
    && CountOf(db'.orders[|db.orders|..], productId) == paid
  }

  /**
   * The selection of the product ended as its selection alone on `db` would: it draws exactly
   * when `Drawing` holds, draws the same ids, and each job's result follows the payment.
   */
  ghost predicate AsIfAlone(db: Db, outcome: SelectOutcome, productId: int, now: int, oracle: Oracle) {
    && (outcome.Batched? <==> SelectWinnersAction.Drawing(db, productId, now))
    && (outcome.Batched? ==>
          && outcome.entryIds ==
               RaffleEntryRepository.RandomlySelectWinners(db, db.products[productId], oracle.randomOrder(productId))
          && SelectWinnersAction.ResultsFollowPayments(outcome.results, outcome.entryIds, oracle))
  }

  /**
   * What a selection of the product needs of the world: a shuffle of the whole entries table,
   * pending entrants who exist as users, and codes not yet used.
   */
  ghost predicate Fits(db: Db, oracle: Oracle, productId: int) {
    && Enumerates(oracle.randomOrder(productId), db.entries.Keys)
    && SelectWinnersAction.EntrantsKnown(db, productId)
    && SelectWinnersAction.OracleFresh(db, oracle, productId)
  }

  ghost predicate WorldFits(db: Db, productIds: seq<int>, oracle: Oracle) {
    forall q :: q in productIds ==> Fits(db, oracle, q)
  }

  /** What a selection leaves for a later product it did not touch still fits. */
  lemma WorldStillFits(db: Db, db': Db, touched: set<int>, oracle: Oracle, productId: int)
    requires Consistent(db') && SelectWinnersAction.Confined(db, db', touched, oracle) && productId !in touched
    requires Enumerates(oracle.randomOrder(productId), db.entries.Keys)
    requires SelectWinnersAction.EntrantsKnown(db, productId)
    requires SelectWinnersAction.OracleFresh(db, oracle, productId)
    ensures Enumerates(oracle.randomOrder(productId), db'.entries.Keys)
    ensures SelectWinnersAction.EntrantsKnown(db', productId)
    ensures SelectWinnersAction.OracleFresh(db', oracle, productId)
  {
    forall id | id in db'.entries && db'.entries[id].productId == productId
      ensures db.entries[id].productId == productId && db'.entries[id] == db.entries[id]
    {
    }
    forall a, i | a in db'.entries && db'.entries[a].productId == productId && 0 <= i < |db'.orders|
      ensures db'.orders[i].orderCode != oracle.orderCode(a)
      ensures Pays(oracle.payment(a)) ==> db'.orders[i].paymentTransactionCode != oracle.payment(a).code
    {
      if i < |db.orders| {
        assert db'.orders[i] == db.orders[i];
      } else {
        var o := db'.orders[i];
        assert db.entries[o.raffleEntryId].productId == o.productId;
        assert o.raffleEntryId != a;
      }
    }
  }

  /** Raffled, then left alone: still raffled. */
  lemma RaffledThenUntouched(db0: Db, db1: Db, db2: Db, touched: set<int>, productId: int, drawn: seq<int>, oracle: Oracle)
    requires Raffled(db0, db1, productId, drawn, oracle)
    requires SelectWinnersAction.Confined(db1, db2, touched, oracle) && productId !in touched
    ensures Raffled(db0, db2, productId, drawn, oracle)
  {
    var tail := db2.orders[|db1.orders|..];
    assert db2.orders[|db0.orders|..] == db1.orders[|db0.orders|..] + tail by {
      assert db2.orders[..|db1.orders|] == db1.orders;
    }
    CountOfAppend(db1.orders[|db0.orders|..], tail, productId);
    CountOfUniform(tail, productId);
  }

  /** Left alone, then raffled: raffled from the start. */
  lemma UntouchedThenRaffled(db0: Db, db1: Db, db2: Db, touched: set<int>, productId: int, drawn: seq<int>, oracle: Oracle)
    requires SelectWinnersAction.Confined(db0, db1, touched, oracle) && productId !in touched
    requires Raffled(db1, db2, productId, drawn, oracle)
    ensures Raffled(db0, db2, productId, drawn, oracle)
  {
    var head := db1.orders[|db0.orders|..];
    assert db2.orders[|db0.orders|..] == head + db2.orders[|db1.orders|..];
    CountOfUniform(head, productId);
    CountOfAppend(head, db2.orders[|db1.orders|..], productId);
    forall id | id in db0.entries && db0.entries[id].productId == productId
      ensures id in db1.entries && db1.entries[id] == db0.entries[id]
    {
    }
  }

  /** A batch's effect on its product, seen as the product being raffled with that draw. */
  lemma BatchRaffles(db: Db, db': Db, productId: int, drawn: seq<int>, oracle: Oracle)
    requires SelectWinnersAction.StockTaken(db, db', productId, SelectWinnersAction.PaidCount(drawn, oracle))
    requires SelectWinnersAction.WinnersMarked(db, db', drawn, oracle)
    requires SelectWinnersAction.OrdersAppended(db, db', SelectWinnersAction.PaidCount(drawn, oracle), productId)
    ensures Raffled(db, db', productId, drawn, oracle)
  {
    CountOfUniform(db'.orders[|db.orders|..], productId);
  }

  /** A first selection on a state that fits ends as the selection alone does, and raffles its product. */
  lemma FirstSelectionRaffles(db: Db, productId: int, now: int, oracle: Oracle)
    requires Consistent(db) && Fits(db, oracle, productId)
    ensures var s := SelectWinnersAction.Handle(db, productId, now, oracle);
      && AsIfAlone(db, s.outcome, productId, now, oracle)
      && (s.outcome.Batched? ==> Raffled(db, s.db, productId, s.outcome.entryIds, oracle))
  {
    var s := SelectWinnersAction.Handle(db, productId, now, oracle);
    SelectWinnersAction.HandleConfined(db, productId, now, oracle);
    SelectWinnersAction.DrawEffect(db, productId, now, oracle);
    if s.outcome.Batched? {
      BatchRaffles(db, s.db, productId, s.outcome.entryIds, oracle);
    }
  }

  /**
   * Each selection of `outcomes`, for the product at the same place of `productIds`, ended as it
   * would alone on `db`, and each product drawn for is raffled in `db'` as its own draw says.
   */
  ghost predicate RunsAsIfAlone(db: Db, db': Db, productIds: seq<int>, outcomes: seq<SelectOutcome>, now: int, oracle: Oracle)
    requires |outcomes| == |productIds|
  {
    forall k :: 0 <= k < |productIds| ==>
      && AsIfAlone(db, outcomes[k], productIds[k], now, oracle)
      && (outcomes[k].Batched? ==> Raffled(db, db', productIds[k], outcomes[k].entryIds, oracle))
  }

  /**
   * Over distinct ids on a state that fits, every selection of a run ends as it would alone on
   * the state before the run, and each product drawn for is raffled exactly as its own draw says:
   * the products of a run are raffled independently of each other.
   */
  lemma {:induction false} SelectEachEffect(db: Db, productIds: seq<int>, now: int, oracle: Oracle)
    requires Consistent(db) && NoDuplicates(productIds) && WorldFits(db, productIds, oracle)
    ensures var r := SelectEach(db, productIds, now, oracle);
      RunsAsIfAlone(db, r.db, productIds, r.outcomes, now, oracle)
    decreases |productIds|
  {
    if productIds != [] {
      var selection := SelectWinnersAction.Handle(db, productIds[0], now, oracle);
      SelectEachStep(db, productIds, now, oracle);
      SelectEachEffect(selection.db, productIds[1..], now, oracle);
      SelectEachCombine(db, productIds, now, oracle);
    }
  }

  /** After the first selection of a run, the rest of the run starts on a state that still fits. */
  lemma SelectEachStep(db: Db, productIds: seq<int>, now: int, oracle: Oracle)
    requires Consistent(db) && NoDuplicates(productIds) && WorldFits(db, productIds, oracle)
    requires productIds != []
    ensures var selection := SelectWinnersAction.Handle(db, productIds[0], now, oracle);
      && Consistent(selection.db) && NoDuplicates(productIds[1..])
      && WorldFits(selection.db, productIds[1..], oracle)
  {
    var q := productIds[0];
    var selection := SelectWinnersAction.Handle(db, q, now, oracle);
    var first: set<int> := if SelectWinnersAction.Drawing(db, q, now) then {q} else {};
    TailNoDuplicates(productIds);
    SelectWinnersAction.HandleConfined(db, q, now, oracle);
    SelectWinnersAction.HandlePreservesConsistency(db, q, now, oracle);
    forall q' | q' in productIds[1..]
      ensures Fits(selection.db, oracle, q')
    {
      assert q' in productIds;
      WorldStillFits(db, selection.db, first, oracle, q');
    }
  }

  /**
   * When the rest of a run raffles independently from the state the first selection left, the
   * whole run raffles independently from the state before it.
   */
  lemma SelectEachCombine(db: Db, productIds: seq<int>, now: int, oracle: Oracle)
    requires Consistent(db) && NoDuplicates(productIds) && WorldFits(db, productIds, oracle)
    requires productIds != []
    requires var selection := SelectWinnersAction.Handle(db, productIds[0], now, oracle);
      var rest := SelectEach(selection.db, productIds[1..], now, oracle);
      RunsAsIfAlone(selection.db, rest.db, productIds[1..], rest.outcomes, now, oracle)
    ensures var r := SelectEach(db, productIds, now, oracle);
      RunsAsIfAlone(db, r.db, productIds, r.outcomes, now, oracle)
  {
    var q := productIds[0];
    var selection := SelectWinnersAction.Handle(db, q, now, oracle);
    var first: set<int> := if SelectWinnersAction.Drawing(db, q, now) then {q} else {};
    var tail := productIds[1..];
    var r := SelectEach(db, productIds, now, oracle);
    var rest := SelectEach(selection.db, tail, now, oracle);
    TailNoDuplicates(productIds);
    SelectWinnersAction.HandleConfined(db, q, now, oracle);
    assert q in productIds;
    FirstSelectionEffect(db, productIds, now, oracle);
    assert forall q' :: q' in tail ==> q' !in first;
    LaterSelectionsUnaffected(db, selection.db, r.db, first, tail, rest.outcomes, now, oracle);
    RunsPrepend(db, r.db, q, selection.outcome, tail, rest.outcomes, now, oracle);
    HeadThenTail(productIds);
    assert r.outcomes == [selection.outcome] + rest.outcomes;
  }

  /** A selection that ran as if alone, ahead of a run that did, makes a run that did. */
  lemma RunsPrepend(db: Db, db': Db, productId: int, outcome: SelectOutcome, productIds: seq<int>,
                    outcomes: seq<SelectOutcome>, now: int, oracle: Oracle)
    requires |outcomes| == |productIds|
    requires AsIfAlone(db, outcome, productId, now, oracle)
    requires outcome.Batched? ==> Raffled(db, db', productId, outcome.entryIds, oracle)
    requires RunsAsIfAlone(db, db', productIds, outcomes, now, oracle)
    ensures RunsAsIfAlone(db, db', [productId] + productIds, [outcome] + outcomes, now, oracle)
  {
    var holds := (o: SelectOutcome, q: int) =>
      && AsIfAlone(db, o, q, now, oracle)
      && (o.Batched? ==> Raffled(db, db', q, o.entryIds, oracle));
    PairwisePrepend(outcome, outcomes, productId, productIds, holds);
  }

  /**
   * Selections run after others that left their products alone end as they would have on the
   * state before, and raffle their products as if from that state.
   */
  lemma LaterSelectionsUnaffected(db: Db, mid: Db, end: Db, touched: set<int>, productIds: seq<int>,
                                  outcomes: seq<SelectOutcome>, now: int, oracle: Oracle)
    requires Linked(db) && SelectWinnersAction.Confined(db, mid, touched, oracle)
    requires |outcomes| == |productIds| && forall q :: q in productIds ==> q !in touched
    requires RunsAsIfAlone(mid, end, productIds, outcomes, now, oracle)
    ensures RunsAsIfAlone(db, end, productIds, outcomes, now, oracle)
  {
    forall k | 0 <= k < |productIds|
      ensures AsIfAlone(db, outcomes[k], productIds[k], now, oracle)
      ensures outcomes[k].Batched? ==> Raffled(db, end, productIds[k], outcomes[k].entryIds, oracle)
    {
      LaterSelectionUnaffected(db, mid, end, touched, productIds[k], outcomes[k], now, oracle);
    }
  }

  /**
   * Over distinct ids, the first selection of a run ends as it would alone, and the later
   * selections leave the product it raffled as that selection left it.
   */
  lemma FirstSelectionEffect(db: Db, productIds: seq<int>, now: int, oracle: Oracle)
    requires Consistent(db) && NoDuplicates(productIds) && productIds != []
    requires Fits(db, oracle, productIds[0])
    ensures var selection := SelectWinnersAction.Handle(db, productIds[0], now, oracle);
      && AsIfAlone(db, selection.outcome, productIds[0], now, oracle)
      && (selection.outcome.Batched? ==>
            Raffled(db, SelectEach(db, productIds, now, oracle).db, productIds[0], selection.outcome.entryIds, oracle))
  {
    var q := productIds[0];
    var selection := SelectWinnersAction.Handle(db, q, now, oracle);
    var tail := productIds[1..];
    TailNoDuplicates(productIds);
    SelectWinnersAction.HandlePreservesConsistency(db, q, now, oracle);
    FirstSelectionRaffles(db, q, now, oracle);
    SelectEachConfined(selection.db, tail, now, oracle);
    if selection.outcome.Batched? {
      RaffledThenUntouched(db, selection.db, SelectEach(db, productIds, now, oracle).db,
                           DrawnProducts(selection.db, tail, now), q, selection.outcome.entryIds, oracle);
    }
  }

  /**
   * A selection run after another that left its product alone ends as it would have on the
   * state before, and raffles its product as if from that state.
   */
  lemma LaterSelectionUnaffected(db: Db, mid: Db, end: Db, touched: set<int>, productId: int,
                                 outcome: SelectOutcome, now: int, oracle: Oracle)
    requires Linked(db) && SelectWinnersAction.Confined(db, mid, touched, oracle) && productId !in touched
    requires AsIfAlone(mid, outcome, productId, now, oracle)
    requires outcome.Batched? ==> Raffled(mid, end, productId, outcome.entryIds, oracle)
    ensures AsIfAlone(db, outcome, productId, now, oracle)
    ensures outcome.Batched? ==> Raffled(db, end, productId, outcome.entryIds, oracle)
  {
    SelectWinnersAction.UntouchedProductDrawsAlike(db, mid, touched, oracle, productId, now);
    if outcome.Batched? {
      UntouchedThenRaffled(db, mid, end, touched, productId, outcome.entryIds, oracle);
    }
  }

  /** The product is active and its raffle date has come. */
  ghost predicate Due(db: Db, productId: int, now: int) {
    productId in db.products && IsActive(db.products[productId]) && ToRaffle(db.products[productId], now)
  }

  /**
   * In a run over the whole products table, each due product's selection ends as it would alone
   * on the state before the run, and raffles its product as its own draw says.
   */
  lemma RafflesRunIndependently(db: Db, rowOrder: seq<int>, now: int, oracle: Oracle)
    requires Consistent(db) && Enumerates(rowOrder, db.products.Keys)
    requires forall q :: q in db.products ==> Fits(db, oracle, q)
    ensures var r := Handle(db, rowOrder, now, oracle);
      forall k :: 0 <= k < |r.productIds| ==>
        && AsIfAlone(db, r.outcomes[k], r.productIds[k], now, oracle)
        && (r.outcomes[k].Batched? ==> Raffled(db, r.db, r.productIds[k], r.outcomes[k].entryIds, oracle))
  {
    var productIds := ProductRepository.GetActiveProductIdsToRaffle(db, rowOrder, now);
    if |productIds| != 0 {
      SelectEachEffect(db, productIds, now, oracle);
    }
  }

  /** The product sold out in the selection `outcome`, taking `db` to `db'`. */
  ghost predicate SoldOut(db: Db, db': Db, productId: int, outcome: SelectOutcome) {
    && productId in db.products
    && outcome.Batched?
    && |outcome.entryIds| == db.products[productId].qty
    && (forall j :: 0 <= j < |outcome.results| ==> outcome.results[j].Charged?)
    && (forall id :: id in outcome.entryIds ==>
          id in db'.entries && db'.entries[id].status == RaffleStatus.Value(RaffleStatus.Winner))
    && productId in db'.products && db'.products[productId] == db.products[productId].(qty := 0)
    && |db.orders| <= |db'.orders| && CountOf(db'.orders[|db.orders|..], productId) == db.products[productId].qty
  }

  /** A due product with enough pending entries, raffled while every payment goes through, sells out. */
  lemma ProductSellsOut(db: Db, db': Db, productId: int, outcome: SelectOutcome, now: int, oracle: Oracle)
    requires Linked(db) && Due(db, productId, now)
    requires 0 < db.products[productId].qty <= RaffleEntryRepository.GetEntryCount(db, productId)
    requires Enumerates(oracle.randomOrder(productId), db.entries.Keys)
    requires forall id :: Pays(oracle.payment(id))
    requires AsIfAlone(db, outcome, productId, now, oracle)
    requires outcome.Batched? ==> Raffled(db, db', productId, outcome.entryIds, oracle)
    ensures SoldOut(db, db', productId, outcome)
  {
    var drawn := outcome.entryIds;
    RaffleEntryRepository.SelectionSize(db, db.products[productId], oracle.randomOrder(productId));
    forall j | 0 <= j < |drawn| ensures Pays(oracle.payment(drawn[j])) {}
    SelectWinnersAction.PaidCountAll(drawn, oracle);
    forall id | id in drawn
      ensures id in db'.entries && db'.entries[id].status == RaffleStatus.Value(RaffleStatus.Winner)
    {
      assert db.entries[id].productId == productId;
    }
  }

  /**
   * When every payment goes through and every due product has stock and at least as many pending
   * entries as units of stock, every due product sells out: qty entries are drawn and charged,
   * each becomes a winner, qty orders of the product are recorded, and its qty ends at 0.
   */
  lemma EveryRaffleSellsOutWhenAllPay(db: Db, rowOrder: seq<int>, now: int, oracle: Oracle)
    requires Consistent(db) && Enumerates(rowOrder, db.products.Keys)
    requires forall q :: q in db.products ==> Fits(db, oracle, q)
    requires forall id :: Pays(oracle.payment(id))
    requires forall q :: Due(db, q, now) ==> 0 < db.products[q].qty <= RaffleEntryRepository.GetEntryCount(db, q)
    ensures var r := Handle(db, rowOrder, now, oracle);
      forall k :: 0 <= k < |r.productIds| ==>
        Due(db, r.productIds[k], now) && SoldOut(db, r.db, r.productIds[k], r.outcomes[k])
  {
    var r := Handle(db, rowOrder, now, oracle);
    RafflesRunIndependently(db, rowOrder, now, oracle);
    forall k | 0 <= k < |r.productIds|
      ensures Due(db, r.productIds[k], now) && SoldOut(db, r.db, r.productIds[k], r.outcomes[k])
    {
      var q := r.productIds[k];
      assert q in r.productIds;
      assert Due(db, q, now);
      ProductSellsOut(db, r.db, q, r.outcomes[k], now, oracle);
    }
  }

  /**
   * A run with a single due product that has stock, at least as many pending entries as units,
   * and payments that all go through: the run selects for that product alone, records qty
   * completed, paid orders of it and no other order, and leaves it with qty 0.
   */
  lemma SingleRaffleSellsOut(db: Db, rowOrder: seq<int>, now: int, oracle: Oracle, productId: int)
    requires Consistent(db) && Enumerates(rowOrder, db.products.Keys)
    requires forall q :: q in db.products ==> Fits(db, oracle, q)
    requires forall id :: Pays(oracle.payment(id))
    requires Due(db, productId, now) && forall q :: Due(db, q, now) ==> q == productId
    requires 0 < db.products[productId].qty <= RaffleEntryRepository.GetEntryCount(db, productId)
    ensures var r := Handle(db, rowOrder, now, oracle);
      && r.productIds == [productId]
      && productId in r.db.products && r.db.products[productId] == db.products[productId].(qty := 0)
      && |r.db.orders| == |db.orders| + db.products[productId].qty
      && (forall i :: |db.orders| <= i < |r.db.orders| ==>
            && r.db.orders[i].productId == productId
            && r.db.orders[i].status == OrderStatus.Value(OrderStatus.Completed))
  {
    var r := Handle(db, rowOrder, now, oracle);
    forall q | q in r.productIds ensures q == productId {
      assert Due(db, q, now);
    }
    assert productId in r.productIds;
    SingletonOf(r.productIds, productId);
    EveryRaffleSellsOutWhenAllPay(db, rowOrder, now, oracle);
    assert r.productIds[0] == productId;
    OnlyDrawnProductsChange(db, rowOrder, now, oracle);
    OnlyDueProductDraws(db, productId, now);
    SoleSellOut(db, r.db, productId, r.outcomes[0], oracle);
  }

  lemma OnlyDueProductDraws(db: Db, productId: int, now: int)
    requires SelectWinnersAction.Drawing(db, productId, now)
    requires forall q :: Due(db, q, now) ==> q == productId
    ensures (set q | q in db.products && SelectWinnersAction.Drawing(db, q, now)) == {productId}
  {
    forall q | q in db.products && SelectWinnersAction.Drawing(db, q, now) ensures q == productId {
      assert Due(db, q, now);
    }
  }

  /** A sell-out that was the only change of its run accounts for every order the run recorded. */
  lemma SoleSellOut(db: Db, db': Db, productId: int, outcome: SelectOutcome, oracle: Oracle)
    requires SoldOut(db, db', productId, outcome)
    requires SelectWinnersAction.Confined(db, db', {productId}, oracle)
    ensures |db'.orders| == |db.orders| + db.products[productId].qty
    ensures forall i :: |db.orders| <= i < |db'.orders| ==>
      && db'.orders[i].productId == productId
      && db'.orders[i].status == OrderStatus.Value(OrderStatus.Completed)
  {
    CountOfUniform(db'.orders[|db.orders|..], productId);
  }
}
