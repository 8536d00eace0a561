/** Market data across venues: the cached best bid and offer, and the merged book. */
module MarketData {
  import opened BookSides

  /** A venue's book for one symbol: the levels of its two sides. */
  datatype OrderBook = OrderBook(bids: seq<PriceLevel>, asks: seq<PriceLevel>)

  type Books = map<nat, map<string, OrderBook>>

  /** The best of one side, the quantity all venues show at that price, and the first venue that shows it. */
  datatype Top = Top(price: int, quantity: int, venue: nat)

  const NO_TOP: Top := Top(INVALID_PRICE, 0, 0)

  datatype Nbbo = Nbbo(bid: Top, ask: Top)

  function SideOf(b: OrderBook, isBid: bool): seq<PriceLevel> { if isBid then b.bids else b.asks }

  function BestPrice(side: seq<PriceLevel>): int { if side == [] then INVALID_PRICE else side[0].price }

  // ---- The best of several venues ----

  /** What one venue adds to one side of a symbol. */
  function TopsOf(books: Books, v: nat, symbol: string, isBid: bool): (ts: seq<Top>)
    ensures |ts| <= 1
  {
    if v !in books || symbol !in books[v] then []
    else
      var side := SideOf(books[v][symbol], isBid);
      if BestPrice(side) == INVALID_PRICE then [] else [Top(side[0].price, side[0].quantity, v)]
  }

  /** The tops of all venues, in the order of registration. */
  function Tops(venues: seq<nat>, books: Books, symbol: string, isBid: bool): seq<Top> {
    if venues == [] then []
    else Tops(venues[..|venues| - 1], books, symbol, isBid) + TopsOf(books, venues[|venues| - 1], symbol, isBid)
  }

  function QuantityAt(ts: seq<Top>, p: int): int {
    if ts == [] then 0 else QuantityAt(ts[..|ts| - 1], p) + if ts[|ts| - 1].price == p then ts[|ts| - 1].quantity else 0
  }

  predicate FirstAt(ts: seq<Top>, best: Top) {
    exists i :: 0 <= i < |ts| && ts[i].price == best.price && ts[i].venue == best.venue && NotBefore(ts, i, best.price)
  }

  predicate NotBefore(ts: seq<Top>, i: nat, p: int)
    requires i <= |ts|
  {
    forall j | 0 <= j < i :: ts[j].price != p
  }

  /** The best price of all, everything shown at it, and the first venue that shows it. */
  predicate IsBestTop(best: Top, ts: seq<Top>, isBid: bool) {
    if ts == [] then best == NO_TOP
    else
      && (forall i | 0 <= i < |ts| :: Key(best.price, isBid) <= Key(ts[i].price, isBid))
      && best.quantity == QuantityAt(ts, best.price) && FirstAt(ts, best)
  }

  predicate IsNbbo(n: Nbbo, venues: seq<nat>, books: Books, symbol: string) {
    IsBestTop(n.bid, Tops(venues, books, symbol, true), true)
    && IsBestTop(n.ask, Tops(venues, books, symbol, false), false)
  }

  function Stepped(best: Top, t: Top, isBid: bool): Top {
    if best.price == INVALID_PRICE || Key(t.price, isBid) < Key(best.price, isBid) then t
    else if t.price == best.price then best.(quantity := best.quantity + t.quantity)
    else best
  }

  predicate RealPrices(ts: seq<Top>) { forall i | 0 <= i < |ts| :: ts[i].price != INVALID_PRICE }

  lemma {:induction false} TopsReal(venues: seq<nat>, books: Books, symbol: string, isBid: bool)
    ensures RealPrices(Tops(venues, books, symbol, isBid))
  {
    if venues != [] {
      TopsReal(venues[..|venues| - 1], books, symbol, isBid);
    }
  }

  lemma {:induction false} NothingAt(ts: seq<Top>, p: int)
    requires forall i | 0 <= i < |ts| :: ts[i].price != p
    ensures QuantityAt(ts, p) == 0
  {
    if ts != [] {
      NothingAt(ts[..|ts| - 1], p);
    }
  }

  lemma QuantitySnoc(ts: seq<Top>, t: Top, p: int)
    ensures QuantityAt(ts + [t], p) == QuantityAt(ts, p) + if t.price == p then t.quantity else 0
  {
    assert (ts + [t])[..|ts|] == ts;
  }

  lemma FirstSnoc(ts: seq<Top>, t: Top, best: Top)
    requires FirstAt(ts, best)
    ensures FirstAt(ts + [t], best)
  {
    var i :| 0 <= i < |ts| && ts[i].price == best.price && ts[i].venue == best.venue && NotBefore(ts, i, best.price);
    assert (ts + [t])[i] == ts[i];
    assert NotBefore(ts + [t], i, best.price);
  }

  /** One more venue. */
  lemma SteppedBest(best: Top, ts: seq<Top>, t: Top, isBid: bool)
    requires IsBestTop(best, ts, isBid) && RealPrices(ts) && t.price != INVALID_PRICE
    ensures IsBestTop(Stepped(best, t, isBid), ts + [t], isBid)
  {
    var b := Stepped(best, t, isBid);
    var us := ts + [t];
    QuantitySnoc(ts, t, b.price);
    if ts == [] {
      assert us[0] == t && NotBefore(us, 0, t.price);
    } else {
      var i :| 0 <= i < |ts| && ts[i].price == best.price && ts[i].venue == best.venue && NotBefore(ts, i, best.price);
      if Key(t.price, isBid) < Key(best.price, isBid) {
        NothingAt(ts, t.price);
        assert us[|ts|] == t && NotBefore(us, |ts|, t.price);
      } else {
        FirstSnoc(ts, t, best);
        assert FirstAt(us, b);
      }
    }
  }

  /** A further venue leaves the best of the others right exactly when it shows a worse price,
      or nothing at the same price. */
  lemma StillBest(best: Top, ts: seq<Top>, t: Top, isBid: bool)
    requires IsBestTop(best, ts, isBid) && RealPrices(ts) && t.price != INVALID_PRICE
    ensures IsBestTop(best, ts + [t], isBid) <==>
            best != NO_TOP && (Key(t.price, isBid) > Key(best.price, isBid)
                               || (t.price == best.price && t.quantity == 0))
  {
    var us := ts + [t];
    assert us[|ts|] == t;
    QuantitySnoc(ts, t, best.price);
    if ts != [] {
      FirstSnoc(ts, t, best);
      var i :| 0 <= i < |ts| && ts[i].price == best.price && ts[i].venue == best.venue && NotBefore(ts, i, best.price);
    }
  }

  // ---- The aggregator's cache ----

  /** Whether registering a venue with this book leaves a cached best bid and offer right. */
  predicate Outside(n: Nbbo, b: OrderBook) { SideOutside(n.bid, b.bids, true) && SideOutside(n.ask, b.asks, false) }

  predicate SideOutside(best: Top, side: seq<PriceLevel>, isBid: bool) {
    || BestPrice(side) == INVALID_PRICE
    || (best != NO_TOP && (Key(side[0].price, isBid) > Key(best.price, isBid)
                           || (side[0].price == best.price && side[0].quantity == 0)))
  }

  lemma RegisteredSide(best: Top, venues: seq<nat>, books: Books, symbol: string, v: nat, isBid: bool)
    requires IsBestTop(best, Tops(venues, books, symbol, isBid), isBid) && v in books && symbol in books[v]
    ensures IsBestTop(best, Tops(venues + [v], books, symbol, isBid), isBid) <==>
            SideOutside(best, SideOf(books[v][symbol], isBid), isBid)
  {
    var ts, side := Tops(venues, books, symbol, isBid), SideOf(books[v][symbol], isBid);
    assert (venues + [v])[..|venues|] == venues;
    TopsReal(venues, books, symbol, isBid);
    if BestPrice(side) != INVALID_PRICE {
      StillBest(best, ts, Top(side[0].price, side[0].quantity, v), isBid);
    } else {
      assert ts + [] == ts;
    }
  }

  /** Venues agreeing on a symbol have the same tops. */
  lemma {:induction false} TopsSame(venues: seq<nat>, books: Books, books': Books, symbol: string, isBid: bool)
    requires forall k | 0 <= k < |venues| ::
               TopsOf(books, venues[k], symbol, isBid) == TopsOf(books', venues[k], symbol, isBid)
    ensures Tops(venues, books, symbol, isBid) == Tops(venues, books', symbol, isBid)
  {
    if venues != [] {
      TopsSame(venues[..|venues| - 1], books, books', symbol, isBid);
    }
  }

  lemma SameNbbo(n: Nbbo, venues: seq<nat>, books: Books, books': Books, symbol: string)
    requires IsNbbo(n, venues, books, symbol)
    requires forall v, b | v in venues :: TopsOf(books, v, symbol, b) == TopsOf(books', v, symbol, b)
    ensures IsNbbo(n, venues, books', symbol)
  {
    TopsSame(venues, books, books', symbol, true);
    TopsSame(venues, books, books', symbol, false);
  }

  /** The best so far, once a venue's side has been looked at. */
  function StepSide(best: Top, side: seq<PriceLevel>, v: nat, isBid: bool): Top {
    if BestPrice(side) == INVALID_PRICE then best else Stepped(best, Top(side[0].price, side[0].quantity, v), isBid)
  }

  lemma VenueStep(best: Top, venues: seq<nat>, books: Books, symbol: string, k: nat, isBid: bool)
    requires k < |venues| && IsBestTop(best, Tops(venues[..k], books, symbol, isBid), isBid)
    ensures var v := venues[k];
            var b := if v in books && symbol in books[v]
                     then StepSide(best, SideOf(books[v][symbol], isBid), v, isBid) else best;
            IsBestTop(b, Tops(venues[..k + 1], books, symbol, isBid), isBid)
  {
    var v, ts := venues[k], Tops(venues[..k], books, symbol, isBid);
    assert venues[..k + 1][..k] == venues[..k];
    assert Tops(venues[..k + 1], books, symbol, isBid) == ts + TopsOf(books, v, symbol, isBid);
    TopsReal(venues[..k], books, symbol, isBid);
    if v in books && symbol in books[v] && BestPrice(SideOf(books[v][symbol], isBid)) != INVALID_PRICE {
      var side := SideOf(books[v][symbol], isBid);
      SteppedBest(best, ts, Top(side[0].price, side[0].quantity, v), isBid);
    } else {
      assert ts + [] == ts;
    }
  }

  /** What a venue's update of one symbol does to the books. */
  function WithBook(books: Books, v: nat, symbol: string, book: OrderBook): Books {
    books[v := (if v in books then books[v] else map[])[symbol := book]]
  }

  /** An update leaves the best prices of other symbols alone. */
  lemma UpdatedElsewhere(n: Nbbo, venues: seq<nat>, books: Books, v: nat, symbol: string, book: OrderBook, s: string)
    requires IsNbbo(n, venues, books, s) && s != symbol
    ensures IsNbbo(n, venues, WithBook(books, v, symbol, book), s)
  {
    SameNbbo(n, venues, books, WithBook(books, v, symbol, book), s);
  }

  /** Every cached best bid and offer is the recomputed one, and whatever any book shows has been looked at. */
  ghost predicate CacheOk(venues: seq<nat>, books: Books, cache: map<string, Nbbo>) {
    && (forall k | 0 <= k < |venues| :: venues[k] in books)
    && (forall v, s | v in books && s in books[v] :: s in cache)
    && (forall s | s in cache :: IsNbbo(cache[s], venues, books, s))
  }

  lemma UpdateKeepsCache(venues: seq<nat>, books: Books, cache: map<string, Nbbo>, v: nat, symbol: string,
                         book: OrderBook, n: Nbbo)
    requires CacheOk(venues, books, cache) && IsNbbo(n, venues, WithBook(books, v, symbol, book), symbol)
    ensures CacheOk(venues, WithBook(books, v, symbol, book), cache[symbol := n])
  {
    forall s | s in cache && s != symbol ensures IsNbbo(cache[s], venues, WithBook(books, v, symbol, book), s) {
      UpdatedElsewhere(cache[s], venues, books, v, symbol, book, s);
    }
    hide IsNbbo;
  }

  /** One venue more: the cache stays right exactly if what its book shows changes nothing. */
  lemma CacheRegistered(venues: seq<nat>, books: Books, books': Books, cache: map<string, Nbbo>, v: nat)
    requires CacheOk(venues, books, cache) && books' == if v in books then books else books[v := map[]]
    ensures v in books ==> forall s | s in books[v] :: s in cache
    ensures CacheOk(venues + [v], books', cache) <==>
            v !in books || forall s | s in books[v] :: Outside(cache[s], books[v][s])
  {
    forall s | s in cache
      ensures IsNbbo(cache[s], venues + [v], books', s) <==> s !in books'[v] || Outside(cache[s], books'[v][s])
    {
      RegisteredNbbo(cache[s], venues, books, books', s, v);
    }
    hide IsNbbo, Outside;
  }

  predicate DistinctVenues(venues: seq<nat>) { forall j, k | 0 <= j < k < |venues| :: venues[j] != venues[k] }

  class MarketDataAggregator {
    var venues: seq<nat>
    var books: Books
    var cache: map<string, Nbbo>

    ghost predicate Valid()
      reads this
    {
      CacheOk(venues, books, cache) && DistinctVenues(venues)
    }

    constructor ()
      ensures Valid() && venues == [] && books == map[]
    {
      venues, books, cache := [], map[], map[];
    }

    /** Registering a venue before its first update keeps the cache right. Afterwards, exactly
        if its books change nothing. */
    method RegisterVenue(v: nat)
      requires Valid()
      modifies this`venues, this`books
      ensures venues == if v in old(venues) then old(venues) else old(venues) + [v]
      ensures books == if v in old(venues) || v in old(books) then old(books) else old(books)[v := map[]]
      ensures Valid() <==>
              v in old(venues) || v !in old(books) || forall s | s in old(books)[v] ::
                Outside(cache[s], old(books)[v][s])
    {
      var k := 0;
      while k < |venues|
        invariant k <= |venues| && v !in venues[..k] && venues == old(venues) && books == old(books)
      {
        if venues[k] == v {
          return;
        }
        k := k + 1;
      }
      assert venues[..k] == venues;
      venues := venues + [v];
      if v !in books {
        books := books[v := map[]];
      }
      CacheRegistered(old(venues), old(books), books, cache, v);
      hide CacheOk, Outside;
    }

    /** Looks up one venue's book. */
    method Recalculate(symbol: string) returns (n: Nbbo, changed: bool)
      modifies this`cache
      ensures IsNbbo(n, venues, books, symbol) && cache == old(cache)[symbol := n]
      ensures var was := if symbol in old(cache) then old(cache)[symbol] else Nbbo(NO_TOP, NO_TOP);
              changed <==> was.bid.price != n.bid.price || was.ask.price != n.ask.price
                           || was.bid.quantity != n.bid.quantity || was.ask.quantity != n.ask.quantity
    {
      n := Nbbo(NO_TOP, NO_TOP);
      var k := 0;
      while k < |venues|
        invariant k <= |venues| && IsNbbo(n, venues[..k], books, symbol) && cache == old(cache)
      {
        var v := venues[k];
        VenueStep(n.bid, venues, books, symbol, k, true);
        VenueStep(n.ask, venues, books, symbol, k, false);
        if v in books && symbol in books[v] {
          var book := books[v][symbol];
          n := Nbbo(StepSide(n.bid, book.bids, v, true), StepSide(n.ask, book.asks, v, false));
        }
        k := k + 1;
      }
      assert venues[..k] == venues;
      var was := if symbol in cache then cache[symbol] else Nbbo(NO_TOP, NO_TOP);
      cache := cache[symbol := n];
      changed := was.bid.price != n.bid.price || was.ask.price != n.ask.price
                 || was.bid.quantity != n.bid.quantity || was.ask.quantity != n.ask.quantity;
    }

    /** A new book for one venue and symbol; whether the best bid and offer changed. */
    method OnBookUpdate(v: nat, symbol: string, book: OrderBook) returns (changed: bool)
      requires Valid()
      modifies this`books, this`cache
      ensures Valid() && symbol in cache
      ensures v in books && books == WithBook(old(books), v, symbol, book)
    {
      var inner := if v in books then books[v] else map[];
      books := books[v := inner[symbol := book]];
      var n;
      n, changed := Recalculate(symbol);
      UpdateKeepsCache(venues, old(books), old(cache), v, symbol, book, n);
      hide CacheOk, IsNbbo;
    }

    /** Collects the valid levels of one side from every registered venue. */
    method Collect(symbol: string, isBid: bool) returns (all: seq<Tagged>)
      ensures all == AllTagged(venues, books, symbol, isBid)
    {
      all := [];
      var k := 0;
      while k < |venues|
        invariant k <= |venues| && all == AllTagged(venues[..k], books, symbol, isBid)
      {
        assert venues[..k + 1][..k] == venues[..k];
        var v := venues[k];
        if v in books && symbol in books[v] {
          var more := CollectSide(SideOf(books[v][symbol], isBid), v);
          all := all + more;
        }
        k := k + 1;
      }
      assert venues[..k] == venues;
    }

    /** The valid levels of one venue's side. */
    static method CollectSide(side: seq<PriceLevel>, v: nat) returns (more: seq<Tagged>)
      ensures more == TaggedSide(side, v)
    {
      more := [];
      var i := 0;
      while i < |side|
        invariant i <= |side| && more == TaggedSide(side[..i], v)
      {
        assert side[..i + 1][..i] == side[..i];
        if LevelValid(side[i]) {
          more := more + [Tagged(side[i].price, side[i].quantity, v)];
        }
        i := i + 1;
      }
      assert side[..i] == side;
    }

    method MergedSide(symbol: string, isBid: bool, ghost best: Top) returns (levels: seq<AggLevel>)
      requires |venues| <= 16 && BooksKept(venues, books, symbol)
      requires IsBestTop(best, Tops(venues, books, symbol, isBid), isBid)
      ensures IsMerged(levels, AllTagged(venues, books, symbol, isBid), isBid)
      ensures levels == [] <==> best == NO_TOP
      ensures levels != [] ==> levels[0].price == best.price && levels[0].total == best.quantity
    {
      var all := Collect(symbol, isBid);
      var sorted := SortByPrice(all, isBid);
      forall p ensures CountAt(sorted, p) <= 16 {
        assert SamePrice(sorted, all, p);
        CountBound(venues, books, symbol, isBid, p);
      }
      levels := Merge(sorted, isBid);
      MergedTop(levels, sorted, best, venues, books, symbol, isBid);
      MergedSame(levels, sorted, all, isBid);
    }

    /** The merged book: every level shows exactly what the venues show at its price, and its top is the cached best. */
    method GetAggregatedBook(symbol: string) returns (n: Nbbo, bids: seq<AggLevel>, asks: seq<AggLevel>)
      requires Valid() && |venues| <= 16 && BooksKept(venues, books, symbol)
      ensures IsNbbo(n, venues, books, symbol)
      ensures IsMerged(bids, AllTagged(venues, books, symbol, true), true)
      ensures IsMerged(asks, AllTagged(venues, books, symbol, false), false)
      ensures Merges(bids, venues, books, symbol, true) && Merges(asks, venues, books, symbol, false)
      ensures (bids == [] <==> n.bid == NO_TOP) && (asks == [] <==> n.ask == NO_TOP)
      ensures bids != [] ==> bids[0].price == n.bid.price && bids[0].total == n.bid.quantity
      ensures asks != [] ==> asks[0].price == n.ask.price && asks[0].total == n.ask.quantity
    {
      n := GetNbbo(symbol);
      bids := MergedSide(symbol, true, n.bid);
      asks := MergedSide(symbol, false, n.ask);
      MergedMerges(bids, venues, books, symbol, true);
      MergedMerges(asks, venues, books, symbol, false);
    }

    /** The best bid and offer over all registered books, from the cache. */
    method GetNbbo(symbol: string) returns (n: Nbbo)
      requires Valid()
      ensures IsNbbo(n, venues, books, symbol)
    {
      if symbol in cache {
        return cache[symbol];
      }
      NothingShown(venues, books, symbol, true);
      NothingShown(venues, books, symbol, false);
      n := Nbbo(NO_TOP, NO_TOP);
    }
  }

  lemma {:induction false} NothingShown(venues: seq<nat>, books: Books, symbol: string, isBid: bool)
    requires forall v | v in books :: symbol !in books[v]
    ensures Tops(venues, books, symbol, isBid) == []
  {
    if venues != [] {
      NothingShown(venues[..|venues| - 1], books, symbol, isBid);
    }
  }

  lemma RegisteredNbbo(n: Nbbo, venues: seq<nat>, books: Books, books': Books, symbol: string, v: nat)
    requires IsNbbo(n, venues, books, symbol) && books' == if v in books then books else books[v := map[]]
    ensures IsNbbo(n, venues + [v], books', symbol) <==> symbol !in books'[v] || Outside(n, books'[v][symbol])
  {
    SameNbbo(n, venues, books, books', symbol);
    assert (venues + [v])[..|venues|] == venues;
    if symbol in books'[v] {
      RegisteredSide(n.bid, venues, books', symbol, v, true);
      RegisteredSide(n.ask, venues, books', symbol, v, false);
    } else {
      assert Tops(venues, books', symbol, true) + [] == Tops(venues, books', symbol, true);
      assert Tops(venues, books', symbol, false) + [] == Tops(venues, books', symbol, false);
    }
  }

  // ---- The merged book ----

  datatype Tagged = Tagged(price: int, quantity: int, venue: nat)

  /** One price of the merged book and what each venue shows at it. */
  datatype AggLevel = AggLevel(price: int, total: int, venues: seq<(nat, int)>)

  predicate LevelValid(l: PriceLevel) { l.price != INVALID_PRICE && l.quantity > 0 }

  /** A side as its venue should keep it: in order, every level valid. */
  predicate WellKept(side: seq<PriceLevel>, isBid: bool) {
    Ordered(side, isBid) && forall i | 0 <= i < |side| :: LevelValid(side[i])
  }

  function TaggedSide(side: seq<PriceLevel>, v: nat): (ts: seq<Tagged>)
  {
    if side == [] then []
    else
      var last := side[|side| - 1];
      TaggedSide(side[..|side| - 1], v) + if LevelValid(last) then [Tagged(last.price, last.quantity, v)] else []
  }

  function TaggedOf(books: Books, v: nat, symbol: string, isBid: bool): seq<Tagged> {
    if v in books && symbol in books[v] then TaggedSide(SideOf(books[v][symbol], isBid), v) else []
  }

  /** All valid levels of all registered venues. */
  function AllTagged(venues: seq<nat>, books: Books, symbol: string, isBid: bool): seq<Tagged> {
    if venues == [] then []
    else AllTagged(venues[..|venues| - 1], books, symbol, isBid) + TaggedOf(books, venues[|venues| - 1], symbol, isBid)
  }

  function SumAt(ts: seq<Tagged>, p: int): int {
    if ts == [] then 0 else SumAt(ts[..|ts| - 1], p) + if ts[|ts| - 1].price == p then ts[|ts| - 1].quantity else 0
  }

  function CountAt(ts: seq<Tagged>, p: int): nat {
    if ts == [] then 0 else CountAt(ts[..|ts| - 1], p) + if ts[|ts| - 1].price == p then 1 else 0
  }

  /** Who shows how much at price p. */
  function QuotesAt(ts: seq<Tagged>, p: int): multiset<(nat, int)> {
    if ts == [] then multiset{}
    else
      var last := ts[|ts| - 1];
      QuotesAt(ts[..|ts| - 1], p) + if last.price == p then multiset{(last.venue, last.quantity)} else multiset{}
  }

  lemma {:induction false} AtConcat(a: seq<Tagged>, b: seq<Tagged>, p: int)
    ensures SumAt(a + b, p) == SumAt(a, p) + SumAt(b, p) && CountAt(a + b, p) == CountAt(a, p) + CountAt(b, p)
    ensures QuotesAt(a + b, p) == QuotesAt(a, p) + QuotesAt(b, p)
  {
    if b == [] {
      assert a + b == a;
    } else {
      assert (a + b)[..|a + b| - 1] == a + b[..|b| - 1];
      AtConcat(a, b[..|b| - 1], p);
    }
  }

  lemma {:induction false} CountPresent(ts: seq<Tagged>, p: int)
    ensures CountAt(ts, p) > 0 <==> exists i :: 0 <= i < |ts| && ts[i].price == p
    ensures CountAt(ts, p) == 0 ==> SumAt(ts, p) == 0 && QuotesAt(ts, p) == multiset{}
  {
    if ts != [] {
      var front := ts[..|ts| - 1];
      CountPresent(front, p);
      if i :| 0 <= i < |ts| && ts[i].price == p {
        assert i < |front| ==> front[i].price == p;
      }
    }
  }

  predicate SamePrice(a: seq<Tagged>, b: seq<Tagged>, p: int) {
    SumAt(a, p) == SumAt(b, p) && CountAt(a, p) == CountAt(b, p) && QuotesAt(a, p) == QuotesAt(b, p)
  }

  /** The same quotes at every price. */
  ghost predicate SameAt(a: seq<Tagged>, b: seq<Tagged>) { forall p :: SamePrice(a, b, p) }

  predicate SortedByKey(ts: seq<Tagged>, isBid: bool) {
    forall i, j | 0 <= i < j < |ts| :: Key(ts[i].price, isBid) <= Key(ts[j].price, isBid)
  }

  method InsertByPrice(ts: seq<Tagged>, t: Tagged, isBid: bool) returns (out: seq<Tagged>)
    requires SortedByKey(ts, isBid)
    ensures SortedByKey(out, isBid) && SameAt(out, ts + [t])
  {
    var at := |ts|;
    while at > 0 && Key(t.price, isBid) < Key(ts[at - 1].price, isBid)
      invariant 0 <= at <= |ts| && forall j | at <= j < |ts| :: Key(t.price, isBid) < Key(ts[j].price, isBid)
    {
      at := at - 1;
    }
    out := ts[..at] + [t] + ts[at..];
    PutSame(ts, t, at);
    PutSorted(ts, t, at, isBid);
  }

  lemma PutSame(ts: seq<Tagged>, t: Tagged, at: nat)
    requires at <= |ts|
    ensures SameAt(ts[..at] + [t] + ts[at..], ts + [t])
  {
    var out, a, b := ts[..at] + [t] + ts[at..], ts[..at], ts[at..];
    assert a + b == ts;
    forall p ensures SamePrice(out, ts + [t], p) {
      AtConcat(a + [t], b, p);
      AtConcat(a, [t], p);
      AtConcat(a, b, p);
      AtConcat(ts, [t], p);
    }
  }

  lemma PutSorted(ts: seq<Tagged>, t: Tagged, at: nat, isBid: bool)
    requires SortedByKey(ts, isBid) && at <= |ts| && (at > 0 ==> Key(ts[at - 1].price, isBid) <= Key(t.price, isBid))
    requires forall j | at <= j < |ts| :: Key(t.price, isBid) < Key(ts[j].price, isBid)
    ensures SortedByKey(ts[..at] + [t] + ts[at..], isBid)
  {
    forall j | 0 <= j < at ensures Key(ts[j].price, isBid) <= Key(t.price, isBid) {
      assert j < at - 1 ==> Key(ts[j].price, isBid) <= Key(ts[at - 1].price, isBid);
    }
  }

  lemma SameSnoc(a: seq<Tagged>, b: seq<Tagged>, t: Tagged, out: seq<Tagged>)
    requires SameAt(a, b) && SameAt(out, a + [t])
    ensures SameAt(out, b + [t])
  {
    forall p ensures SamePrice(out, b + [t], p) {
      assert SamePrice(a, b, p) && SamePrice(out, a + [t], p);
      AtConcat(a, [t], p);
      AtConcat(b, [t], p);
    }
  }

  method SortByPrice(ts: seq<Tagged>, isBid: bool) returns (out: seq<Tagged>)
    ensures SortedByKey(out, isBid) && SameAt(out, ts)
  {
    out := [];
    var k := 0;
    while k < |ts|
      invariant k <= |ts| && SortedByKey(out, isBid) && SameAt(out, ts[..k])
    {
      ghost var before := out;
      out := InsertByPrice(out, ts[k], isBid);
      SameSnoc(before, ts[..k], ts[k], out);
      assert ts[..k + 1] == ts[..k] + [ts[k]];
      k := k + 1;
    }
    assert ts[..k] == ts;
  }

  // ---- Grouping by price ----

  predicate LevelsOrdered(ls: seq<AggLevel>, isBid: bool) {
    forall i, j | 0 <= i < j < |ls| :: Key(ls[i].price, isBid) < Key(ls[j].price, isBid)
  }

  predicate HasLevel(ls: seq<AggLevel>, p: int) { exists i :: 0 <= i < |ls| && ls[i].price == p }

  /** Every level shows exactly what the venues show at its price. */
  predicate Exact(ls: seq<AggLevel>, ts: seq<Tagged>) { forall i | 0 <= i < |ls| :: Shows(ls[i], ts) }

  /** The level lists all quotes at its price and their total. */
  predicate Shows(l: AggLevel, ts: seq<Tagged>) {
    && l.total == SumAt(ts, l.price) == Listed(l.venues) && |l.venues| == CountAt(ts, l.price) > 0
    && multiset(l.venues) == QuotesAt(ts, l.price)
  }

  /** All quantities listed. */
  function Listed(vs: seq<(nat, int)>): int {
    if vs == [] then 0 else Listed(vs[..|vs| - 1]) + vs[|vs| - 1].1
  }

  /** The first i entries have been grouped. */
  ghost predicate Grouping(ls: seq<AggLevel>, ts: seq<Tagged>, i: nat, isBid: bool) {
    && i <= |ts| && |ls| <= MAX_DEPTH && LevelsOrdered(ls, isBid) && Exact(ls, ts[..i])
    && (i == 0 <==> ls == []) && (i > 0 ==> ls[|ls| - 1].price == ts[i - 1].price)
    && AllLevels(ls, ts, i)
  }

  /** The first i entries have a level at their price. */
  predicate AllLevels(ls: seq<AggLevel>, ts: seq<Tagged>, i: nat)
    requires i <= |ts|
  {
    forall k | 0 <= k < i :: HasLevel(ls, ts[k].price)
  }

  lemma LevelsStay(ls: seq<AggLevel>, ms: seq<AggLevel>, ts: seq<Tagged>, i: nat)
    requires i < |ts| && AllLevels(ls, ts, i) && |ls| <= |ms| && forall k | 0 <= k < |ls| :: ls[k].price == ms[k].price
    requires HasLevel(ms, ts[i].price)
    ensures AllLevels(ms, ts, i + 1)
  {
    forall k | 0 <= k < i + 1 ensures HasLevel(ms, ts[k].price) {
      if k < i {
        assert HasLevel(ls, ts[k].price);
        var m :| 0 <= m < |ls| && ls[m].price == ts[k].price;
        assert ms[m].price == ts[k].price;
      }
    }
  }

  function AddVenue(l: AggLevel, v: nat, quantity: int): AggLevel {
    if |l.venues| < 16 then AggLevel(l.price, l.total + quantity, l.venues + [(v, quantity)]) else l
  }

  lemma PrefixSnoc(ts: seq<Tagged>, i: nat, p: int)
    requires i < |ts|
    ensures SumAt(ts[..i + 1], p) == SumAt(ts[..i], p) + if ts[i].price == p then ts[i].quantity else 0
    ensures CountAt(ts[..i + 1], p) == CountAt(ts[..i], p) + if ts[i].price == p then 1 else 0
    ensures QuotesAt(ts[..i + 1], p) ==
            QuotesAt(ts[..i], p) + if ts[i].price == p then multiset{(ts[i].venue, ts[i].quantity)} else multiset{}
  {
    assert ts[..i + 1][..i] == ts[..i];
  }

  lemma {:induction false} CountGrows(ts: seq<Tagged>, i: nat, j: nat, p: int)
    requires i <= j <= |ts|
    ensures CountAt(ts[..i], p) <= CountAt(ts[..j], p)
  {
    if i < j {
      CountGrows(ts, i, j - 1, p);
      PrefixSnoc(ts, j - 1, p);
    }
  }

  /** A further entry at the last price. */
  lemma GroupSame(ls: seq<AggLevel>, ts: seq<Tagged>, i: nat, isBid: bool)
    requires Grouping(ls, ts, i, isBid) && 0 < i < |ts| && ts[i].price == ls[|ls| - 1].price
    requires CountAt(ts, ts[i].price) <= 16
    ensures var n := |ls| - 1; Grouping(ls[n := AddVenue(ls[n], ts[i].venue, ts[i].quantity)], ts, i + 1, isBid)
  {
    var n := |ls| - 1;
    var ms := ls[n := AddVenue(ls[n], ts[i].venue, ts[i].quantity)];
    RoomForVenue(ls[n], ts, i);
    GroupSameExact(ls, ts, i, isBid);
    assert ms[n].price == ts[i].price;
    LevelsStay(ls, ms, ts, i);
    hide Exact, Shows, CountAt, SumAt, QuotesAt, AllLevels, HasLevel;
  }

  /** With at most 16 quotes at a price there is room for the next one. */
  lemma RoomForVenue(l: AggLevel, ts: seq<Tagged>, i: nat)
    requires i < |ts| && Shows(l, ts[..i]) && ts[i].price == l.price && CountAt(ts, l.price) <= 16
    ensures |l.venues| < 16
  {
    CountGrows(ts, i + 1, |ts|, l.price);
    assert ts[..|ts|] == ts;
    PrefixSnoc(ts, i, l.price);
  }

  lemma GroupSameExact(ls: seq<AggLevel>, ts: seq<Tagged>, i: nat, isBid: bool)
    requires ls != [] && i < |ts| && LevelsOrdered(ls, isBid) && Exact(ls, ts[..i]) && ts[i].price == ls[|ls| - 1].price
    requires |ls[|ls| - 1].venues| < 16
    ensures var n := |ls| - 1; Exact(ls[n := AddVenue(ls[n], ts[i].venue, ts[i].quantity)], ts[..i + 1])
  {
    var n := |ls| - 1;
    var ms := ls[n := AddVenue(ls[n], ts[i].venue, ts[i].quantity)];
    forall k | 0 <= k < |ms| ensures Shows(ms[k], ts[..i + 1]) {
      assert Shows(ls[k], ts[..i]);
      assert k < n ==> Key(ls[k].price, isBid) < Key(ls[n].price, isBid);
      if k == n {
        ShowsMore(ls[n], ts, i);
      } else {
        ShowsStill(ls[k], ts, i);
      }
    }
  }

  lemma ShowsMore(l: AggLevel, ts: seq<Tagged>, i: nat)
    requires i < |ts| && Shows(l, ts[..i]) && ts[i].price == l.price && |l.venues| < 16
    ensures Shows(AddVenue(l, ts[i].venue, ts[i].quantity), ts[..i + 1])
  {
    PrefixSnoc(ts, i, l.price);
    assert (l.venues + [(ts[i].venue, ts[i].quantity)])[..|l.venues|] == l.venues;
    assert multiset(l.venues + [(ts[i].venue, ts[i].quantity)]) ==
           multiset(l.venues) + multiset{(ts[i].venue, ts[i].quantity)};
  }

  lemma ShowsStill(l: AggLevel, ts: seq<Tagged>, i: nat)
    requires i < |ts| && Shows(l, ts[..i]) && ts[i].price != l.price
    ensures Shows(l, ts[..i + 1])
  {
    PrefixSnoc(ts, i, l.price);
  }

  /** An entry at a new price. */
  lemma GroupNew(ls: seq<AggLevel>, ts: seq<Tagged>, i: nat, isBid: bool)
    requires Grouping(ls, ts, i, isBid) && i < |ts| && SortedByKey(ts, isBid) && |ls| < MAX_DEPTH
    requires ls == [] || ts[i].price != ls[|ls| - 1].price
    ensures Grouping(ls + [AggLevel(ts[i].price, ts[i].quantity, [(ts[i].venue, ts[i].quantity)])], ts, i + 1, isBid)
  {
    var l := AggLevel(ts[i].price, ts[i].quantity, [(ts[i].venue, ts[i].quantity)]);
    var ms := ls + [l];
    LaterKey(ls, ts, i, isBid);
    NewShows(ls, ts, i);
    assert ms[|ls|].price == ts[i].price;
    LevelsStay(ls, ms, ts, i);
    hide Shows, AllLevels, HasLevel;
    assert forall k | 0 <= k < |ms| :: ms[k] == if k < |ls| then ls[k] else l;
  }

  lemma NewShows(ls: seq<AggLevel>, ts: seq<Tagged>, i: nat)
    requires i < |ts| && Exact(ls, ts[..i]) && (forall m | 0 <= m < |ls| :: ls[m].price != ts[i].price)
    requires forall k | 0 <= k < i :: ts[k].price != ts[i].price
    ensures Shows(AggLevel(ts[i].price, ts[i].quantity, [(ts[i].venue, ts[i].quantity)]), ts[..i + 1])
    ensures Exact(ls, ts[..i + 1])
  {
    var l := AggLevel(ts[i].price, ts[i].quantity, [(ts[i].venue, ts[i].quantity)]);
    PrefixSnoc(ts, i, l.price);
    CountPresent(ts[..i], l.price);
    assert multiset(l.venues) == multiset{(ts[i].venue, ts[i].quantity)} && l.venues[..0] == [];
    forall k | 0 <= k < |ls| ensures Shows(ls[k], ts[..i + 1]) {
      ShowsStill(ls[k], ts, i);
    }
  }

  /** A new price, and everything after it, is worse than all grouped so far. */
  lemma LaterKey(ls: seq<AggLevel>, ts: seq<Tagged>, i: nat, isBid: bool)
    requires Grouping(ls, ts, i, isBid) && i < |ts| && SortedByKey(ts, isBid)
    requires ls == [] || ts[i].price != ls[|ls| - 1].price
    ensures forall m, k | 0 <= m < |ls| && i <= k < |ts| :: Key(ls[m].price, isBid) < Key(ts[k].price, isBid)
    ensures forall k | 0 <= k < i :: ts[k].price != ts[i].price
  {
    forall m, k | 0 <= m < |ls| && i <= k < |ts| ensures Key(ls[m].price, isBid) < Key(ts[k].price, isBid) {
      var n := |ls| - 1;
      assert Key(ts[i - 1].price, isBid) <= Key(ts[i].price, isBid)
             && Key(ts[i].price, isBid) <= Key(ts[k].price, isBid);
      assert m < n ==> Key(ls[m].price, isBid) < Key(ls[n].price, isBid);
    }
    forall k | 0 <= k < i ensures ts[k].price != ts[i].price {
      assert HasLevel(ls, ts[k].price);
    }
  }

  /** What the merged side shows: its prices in order, each with exactly what the venues show at it, and no better price
      left out. */
  ghost predicate IsMerged(ls: seq<AggLevel>, ts: seq<Tagged>, isBid: bool) {
    && |ls| <= MAX_DEPTH && LevelsOrdered(ls, isBid) && Exact(ls, ts)
    && (forall k | 0 <= k < |ts| :: HasLevel(ls, ts[k].price) || BeyondAll(ls, ts[k].price, isBid))
  }

  predicate BeyondAll(ls: seq<AggLevel>, p: int, isBid: bool) {
    |ls| == MAX_DEPTH && forall m | 0 <= m < |ls| :: Key(ls[m].price, isBid) < Key(p, isBid)
  }

  lemma {:induction false} RestElsewhere(ts: seq<Tagged>, i: nat, j: nat, p: int)
    requires i <= j <= |ts| && forall k | i <= k < j :: ts[k].price != p
    ensures SamePrice(ts[..j], ts[..i], p)
  {
    if i < j {
      RestElsewhere(ts, i, j - 1, p);
      PrefixSnoc(ts, j - 1, p);
    }
  }

  /** Whether the entry has the price of the last level. */
  predicate SameAsLast(ls: seq<AggLevel>, t: Tagged) { ls != [] && ls[|ls| - 1].price == t.price }

  /** The levels with one more entry. */
  function Grouped(ls: seq<AggLevel>, t: Tagged): seq<AggLevel> {
    if SameAsLast(ls, t) then ls[|ls| - 1 := AddVenue(ls[|ls| - 1], t.venue, t.quantity)]
    else ls + [AddVenue(AggLevel(t.price, 0, []), t.venue, t.quantity)]
  }

  lemma GroupNext(ls: seq<AggLevel>, ts: seq<Tagged>, i: nat, isBid: bool)
    requires Grouping(ls, ts, i, isBid) && i < |ts| && SortedByKey(ts, isBid)
    requires SameAsLast(ls, ts[i]) || |ls| < MAX_DEPTH
    requires CountAt(ts, ts[i].price) <= 16
    ensures Grouping(Grouped(ls, ts[i]), ts, i + 1, isBid)
  {
    if SameAsLast(ls, ts[i]) {
      GroupSame(ls, ts, i, isBid);
    } else {
      GroupNew(ls, ts, i, isBid);
      assert AddVenue(AggLevel(ts[i].price, 0, []), ts[i].venue, ts[i].quantity)
          == AggLevel(ts[i].price, ts[i].quantity, [(ts[i].venue, ts[i].quantity)]);
    }
    hide Grouping;
  }

  /** Groups sorted entries by price, at most so many prices. */
  method Merge(ts: seq<Tagged>, isBid: bool) returns (ls: seq<AggLevel>)
    requires SortedByKey(ts, isBid) && forall p :: CountAt(ts, p) <= 16
    ensures IsMerged(ls, ts, isBid)
  {
    ls := [];
    var i := 0;
    while i < |ts| && (SameAsLast(ls, ts[i]) || |ls| < MAX_DEPTH)
      invariant i <= |ts| && Grouping(ls, ts, i, isBid)
    {
      var t := ts[i];
      GroupNext(ls, ts, i, isBid);
      if SameAsLast(ls, t) {
        ls := ls[|ls| - 1 := AddVenue(ls[|ls| - 1], t.venue, t.quantity)];
      } else {
        ls := ls + [AddVenue(AggLevel(t.price, 0, []), t.venue, t.quantity)];
      }
      i := i + 1;
    }
    if i < |ts| {
      MergeStops(ls, ts, i, isBid);
    } else {
      MergeDone(ls, ts, isBid);
    }
  }

  lemma MergeDone(ls: seq<AggLevel>, ts: seq<Tagged>, isBid: bool)
    requires Grouping(ls, ts, |ts|, isBid)
    ensures IsMerged(ls, ts, isBid)
  {
    assert ts[..|ts|] == ts;
  }

  lemma MergeStops(ls: seq<AggLevel>, ts: seq<Tagged>, i: nat, isBid: bool)
    requires Grouping(ls, ts, i, isBid) && i < |ts| && SortedByKey(ts, isBid) && |ls| == MAX_DEPTH
    requires ts[i].price != ls[|ls| - 1].price
    ensures IsMerged(ls, ts, isBid)
  {
    LaterKey(ls, ts, i, isBid);
    forall m | 0 <= m < |ls| ensures Shows(ls[m], ts) {
      RestElsewhere(ts, i, |ts|, ls[m].price);
      assert ts[..|ts|] == ts;
    }
  }

  // ---- The merged book agrees with the best bid and offer ----

  ghost predicate BooksKept(venues: seq<nat>, books: Books, symbol: string) {
    forall k | 0 <= k < |venues| && venues[k] in books && symbol in books[venues[k]] ::
      WellKept(books[venues[k]][symbol].bids, true) && WellKept(books[venues[k]][symbol].asks, false)
  }

  /** A well kept side shows a price at most once, and the best price with the quantity of its first level. */
  lemma {:induction false} SideAt(side: seq<PriceLevel>, v: nat, isBid: bool, p: int)
    requires WellKept(side, isBid)
    ensures CountAt(TaggedSide(side, v), p) <= 1
    ensures (forall i | 0 <= i < |side| :: side[i].price != p) ==>
              CountAt(TaggedSide(side, v), p) == 0 == SumAt(TaggedSide(side, v), p)
    ensures side != [] && side[0].price == p ==>
              SumAt(TaggedSide(side, v), p) == side[0].quantity && CountAt(TaggedSide(side, v), p) == 1
  {
    if side != [] {
      var front, last := side[..|side| - 1], side[|side| - 1];
      SideAt(front, v, isBid, p);
      AtConcat(TaggedSide(front, v), [Tagged(last.price, last.quantity, v)], p);
      OneAt(Tagged(last.price, last.quantity, v), p);
      if last.price == p {
        forall i | 0 <= i < |front| ensures front[i].price != p {
          assert Key(side[i].price, isBid) < Key(last.price, isBid);
        }
      }
    }
  }

  lemma OneAt(t: Tagged, p: int)
    ensures SumAt([t], p) == (if t.price == p then t.quantity else 0)
    ensures CountAt([t], p) == if t.price == p then 1 else 0
  {
    assert [t][..0] == [];
  }

  /** What one venue shows at a price no worse than its own best is its top. */
  lemma VenueAt(books: Books, v: nat, symbol: string, isBid: bool, p: int)
    requires v in books && symbol in books[v] ==> WellKept(SideOf(books[v][symbol], isBid), isBid)
    requires forall t | t in TopsOf(books, v, symbol, isBid) :: Key(p, isBid) <= Key(t.price, isBid)
    ensures SumAt(TaggedOf(books, v, symbol, isBid), p) == QuantityAt(TopsOf(books, v, symbol, isBid), p)
  {
    if v in books && symbol in books[v] {
      var side := SideOf(books[v][symbol], isBid);
      SideAt(side, v, isBid, p);
      if side != [] {
        assert LevelValid(side[0]);
        var t := Top(side[0].price, side[0].quantity, v);
        assert TopsOf(books, v, symbol, isBid) == [t] && t in [t] && [t][..0] == [];
        forall i | 0 < i < |side| ensures side[i].price != p {
          assert Key(side[0].price, isBid) < Key(side[i].price, isBid);
        }
      }
    }
  }

  lemma {:induction false} TopSum(venues: seq<nat>, books: Books, symbol: string, isBid: bool, p: int)
    requires BooksKept(venues, books, symbol)
    requires forall t | t in Tops(venues, books, symbol, isBid) :: Key(p, isBid) <= Key(t.price, isBid)
    ensures SumAt(AllTagged(venues, books, symbol, isBid), p) == QuantityAt(Tops(venues, books, symbol, isBid), p)
  {
    if venues != [] {
      var front, v := venues[..|venues| - 1], venues[|venues| - 1];
      TopSum(front, books, symbol, isBid, p);
      VenueAt(books, v, symbol, isBid, p);
      AtConcat(AllTagged(front, books, symbol, isBid), TaggedOf(books, v, symbol, isBid), p);
      QuantityConcat(Tops(front, books, symbol, isBid), TopsOf(books, v, symbol, isBid), p);
    }
  }

  lemma QuantityConcat(a: seq<Top>, b: seq<Top>, p: int)
    requires |b| <= 1
    ensures QuantityAt(a + b, p) == QuantityAt(a, p) + QuantityAt(b, p)
  {
    if b == [] {
      assert a + b == a;
    } else {
      assert b == [b[0]] && b[..0] == [];
      QuantitySnoc(a, b[0], p);
    }
  }

  /** No price is shown by more venues than there are. */
  lemma {:induction false} CountBound(venues: seq<nat>, books: Books, symbol: string, isBid: bool, p: int)
    requires BooksKept(venues, books, symbol)
    ensures CountAt(AllTagged(venues, books, symbol, isBid), p) <= |venues|
  {
    if venues != [] {
      var front, v := venues[..|venues| - 1], venues[|venues| - 1];
      CountBound(front, books, symbol, isBid, p);
      AtConcat(AllTagged(front, books, symbol, isBid), TaggedOf(books, v, symbol, isBid), p);
      if v in books && symbol in books[v] {
        SideAt(SideOf(books[v][symbol], isBid), v, isBid, p);
      }
    }
  }

  /** Every price shown anywhere is no better than some venue's top, and every top is shown. */
  lemma {:induction false} ShownAndTops(venues: seq<nat>, books: Books, symbol: string, isBid: bool, p: int)
    requires BooksKept(venues, books, symbol)
    ensures CountAt(AllTagged(venues, books, symbol, isBid), p) > 0 ==>
              exists t :: t in Tops(venues, books, symbol, isBid) && Key(t.price, isBid) <= Key(p, isBid)
    ensures (exists t :: t in Tops(venues, books, symbol, isBid) && t.price == p) ==>
              CountAt(AllTagged(venues, books, symbol, isBid), p) > 0
  {
    if venues != [] {
      var front, v := venues[..|venues| - 1], venues[|venues| - 1];
      ShownAndTops(front, books, symbol, isBid, p);
      AtConcat(AllTagged(front, books, symbol, isBid), TaggedOf(books, v, symbol, isBid), p);
      assert forall t | t in Tops(front, books, symbol, isBid) :: t in Tops(venues, books, symbol, isBid);
      VenueShown(books, v, symbol, isBid, p);
    }
  }

  lemma VenueShown(books: Books, v: nat, symbol: string, isBid: bool, p: int)
    requires v in books && symbol in books[v] ==> WellKept(SideOf(books[v][symbol], isBid), isBid)
    ensures CountAt(TaggedOf(books, v, symbol, isBid), p) > 0 ==>
              exists t :: t in TopsOf(books, v, symbol, isBid) && Key(t.price, isBid) <= Key(p, isBid)
    ensures (exists t :: t in TopsOf(books, v, symbol, isBid) && t.price == p) ==>
              CountAt(TaggedOf(books, v, symbol, isBid), p) > 0
  {
    if v in books && symbol in books[v] {
      var side := SideOf(books[v][symbol], isBid);
      SideAt(side, v, isBid, p);
      if side != [] {
        assert LevelValid(side[0]);
        var t := Top(side[0].price, side[0].quantity, v);
        assert TopsOf(books, v, symbol, isBid) == [t] && t in [t];
        assert forall i | 0 < i < |side| :: Key(side[0].price, isBid) < Key(side[i].price, isBid);
      }
    }
  }

  /** The merged side starts with the best bid or offer, with its quantity. */
  lemma MergedTop(ls: seq<AggLevel>, sorted: seq<Tagged>, best: Top, venues: seq<nat>, books: Books, symbol: string,
                  isBid: bool)
    requires BooksKept(venues, books, symbol) && IsBestTop(best, Tops(venues, books, symbol, isBid), isBid)
    requires SameAt(sorted, AllTagged(venues, books, symbol, isBid)) && IsMerged(ls, sorted, isBid)
    ensures ls == [] <==> best == NO_TOP
    ensures ls != [] ==> ls[0].price == best.price && ls[0].total == best.quantity
  {
    var ts, all := Tops(venues, books, symbol, isBid), AllTagged(venues, books, symbol, isBid);
    MergedSame(ls, sorted, all, isBid);
    TopsReal(venues, books, symbol, isBid);
    if ls != [] {
      assert Shows(ls[0], all);
      ShownAndTops(venues, books, symbol, isBid, ls[0].price);
    }
    if ts != [] {
      BestShown(ls, all, best, venues, books, symbol, isBid);
      TopSum(venues, books, symbol, isBid, best.price);
    }
    hide AllTagged, SumAt, CountAt, QuotesAt;
  }

  /** The best price of all is the price of the first level. */
  lemma BestShown(ls: seq<AggLevel>, all: seq<Tagged>, best: Top, venues: seq<nat>, books: Books, symbol: string,
                  isBid: bool)
    requires BooksKept(venues, books, symbol) && Tops(venues, books, symbol, isBid) != []
    requires IsBestTop(best, Tops(venues, books, symbol, isBid), isBid)
    requires RealPrices(Tops(venues, books, symbol, isBid))
    requires all == AllTagged(venues, books, symbol, isBid) && IsMerged(ls, all, isBid)
    ensures ls != [] && ls[0].price == best.price && best != NO_TOP
  {
    var ts := Tops(venues, books, symbol, isBid);
    assert FirstAt(ts, best);
    var i :| 0 <= i < |ts| && ts[i].price == best.price;
    assert ts[i] in ts;
    ShownAndTops(venues, books, symbol, isBid, best.price);
    CountPresent(all, best.price);
    var k :| 0 <= k < |all| && all[k].price == best.price;
    assert HasLevel(ls, all[k].price) || BeyondAll(ls, all[k].price, isBid);
    assert Shows(ls[0], all);
    ShownAndTops(venues, books, symbol, isBid, ls[0].price);
    TopIs(ls, best.price, isBid);
  }

  lemma TopIs(ls: seq<AggLevel>, p: int, isBid: bool)
    requires ls != [] && LevelsOrdered(ls, isBid) && Key(p, isBid) <= Key(ls[0].price, isBid)
    requires HasLevel(ls, p) || BeyondAll(ls, p, isBid)
    ensures ls[0].price == p
  {
    assert forall k | 0 < k < |ls| :: Key(ls[0].price, isBid) < Key(ls[k].price, isBid);
    if HasLevel(ls, p) {
      var m :| 0 <= m < |ls| && ls[m].price == p;
    }
  }

  // ---- The merged book against the venues' own books ----

  /** Venue v shows the quantity at the price, at any depth of its book. */
  predicate VenueShows(books: Books, v: nat, symbol: string, isBid: bool, price: int, quantity: int) {
    && v in books && symbol in books[v] && price != INVALID_PRICE && quantity > 0
    && var side := SideOf(books[v][symbol], isBid);
    exists i :: 0 <= i < |side| && side[i].price == price && side[i].quantity == quantity
  }

  predicate LevelLists(ls: seq<AggLevel>, price: int, v: nat, quantity: int) {
    exists m :: 0 <= m < |ls| && ls[m].price == price && (v, quantity) in ls[m].venues
  }

  /** The merged side lists exactly what the venues show, whatever the depth, as far as it has room: at each price every
      venue that shows it, once, with its quantity, and the total of these quantities; prices without a level are worse
      than all that have one. */
  ghost predicate Merges(ls: seq<AggLevel>, venues: seq<nat>, books: Books, symbol: string, isBid: bool) {
    && LevelsOrdered(ls, isBid)
    && (forall v, p, q | v in venues && VenueShows(books, v, symbol, isBid, p, q) ::
          LevelLists(ls, p, v, q) || BeyondAll(ls, p, isBid))
    && (forall m, e | 0 <= m < |ls| && e in ls[m].venues ::
          e.0 in venues && VenueShows(books, e.0, symbol, isBid, ls[m].price, e.1))
    && (forall m | 0 <= m < |ls| :: ls[m].total == Listed(ls[m].venues) && EachOnce(ls[m].venues))
  }

  predicate EachOnce(vs: seq<(nat, int)>) { forall a, b | 0 <= a < b < |vs| :: vs[a].0 != vs[b].0 }

  lemma {:induction false} SideTagged(side: seq<PriceLevel>, v: nat, i: nat)
    requires i < |side| && side[i].price != INVALID_PRICE && side[i].quantity > 0
    ensures Tagged(side[i].price, side[i].quantity, v) in TaggedSide(side, v)
  {
    if i < |side| - 1 {
      SideTagged(side[..|side| - 1], v, i);
    }
  }

  lemma {:induction false} TaggedShown(side: seq<PriceLevel>, v: nat, t: Tagged)
    requires t in TaggedSide(side, v)
    ensures t.venue == v && t.price != INVALID_PRICE && t.quantity > 0
    ensures exists i :: 0 <= i < |side| && side[i].price == t.price && side[i].quantity == t.quantity
  {
    var front, last := side[..|side| - 1], side[|side| - 1];
    if t in TaggedSide(front, v) {
      TaggedShown(front, v, t);
      var i :| 0 <= i < |front| && front[i].price == t.price && front[i].quantity == t.quantity;
      assert side[i] == front[i];
    } else {
      assert side[|side| - 1].price == t.price;
    }
  }

  /** What is collected is what the registered venues show. */
  lemma {:induction false} AllShown(venues: seq<nat>, books: Books, symbol: string, isBid: bool, t: Tagged)
    ensures t in AllTagged(venues, books, symbol, isBid) <==>
            t.venue in venues && VenueShows(books, t.venue, symbol, isBid, t.price, t.quantity)
  {
    if venues != [] {
      var front, v := venues[..|venues| - 1], venues[|venues| - 1];
      AllShown(front, books, symbol, isBid, t);
      assert t.venue in venues <==> t.venue in front || t.venue == v;
      VenueTagged(books, v, symbol, isBid, t);
    }
  }

  lemma VenueTagged(books: Books, v: nat, symbol: string, isBid: bool, t: Tagged)
    ensures t in TaggedOf(books, v, symbol, isBid) <==>
            t.venue == v && VenueShows(books, v, symbol, isBid, t.price, t.quantity)
  {
    if v in books && symbol in books[v] {
      var side := SideOf(books[v][symbol], isBid);
      if t in TaggedSide(side, v) {
        TaggedShown(side, v, t);
      }
      if t.venue == v && VenueShows(books, v, symbol, isBid, t.price, t.quantity) {
        var i :| 0 <= i < |side| && side[i].price == t.price && side[i].quantity == t.quantity;
        SideTagged(side, v, i);
      }
    }
  }

  lemma {:induction false} QuotesAre(ts: seq<Tagged>, p: int, e: (nat, int))
    ensures e in QuotesAt(ts, p) <==> Tagged(p, e.1, e.0) in ts
  {
    if ts != [] {
      var front, last := ts[..|ts| - 1], ts[|ts| - 1];
      QuotesAre(front, p, e);
      assert ts == front + [last];
    }
  }

  /** How often one venue shows a price. */
  function VenueCount(ts: seq<Tagged>, p: int, v: nat): nat {
    if ts == [] then 0
    else
      var last := ts[|ts| - 1];
      VenueCount(ts[..|ts| - 1], p, v) + if last.price == p && last.venue == v then 1 else 0
  }

  lemma {:induction false} VenueCountConcat(a: seq<Tagged>, b: seq<Tagged>, p: int, v: nat)
    ensures VenueCount(a + b, p, v) == VenueCount(a, p, v) + VenueCount(b, p, v)
  {
    if b == [] {
      assert a + b == a;
    } else {
      assert (a + b)[..|a + b| - 1] == a + b[..|b| - 1];
      VenueCountConcat(a, b[..|b| - 1], p, v);
    }
  }

  lemma {:induction false} VenueCountAtMost(ts: seq<Tagged>, p: int, v: nat)
    ensures VenueCount(ts, p, v) <= CountAt(ts, p)
    ensures (forall i | 0 <= i < |ts| :: ts[i].venue != v) ==> VenueCount(ts, p, v) == 0
  {
    if ts != [] {
      VenueCountAtMost(ts[..|ts| - 1], p, v);
    }
  }

  /** A registered venue shows a price once at most. */
  lemma {:induction false} ShownOnce(venues: seq<nat>, books: Books, symbol: string, isBid: bool, p: int, v: nat)
    requires BooksKept(venues, books, symbol) && DistinctVenues(venues)
    ensures VenueCount(AllTagged(venues, books, symbol, isBid), p, v) <= if v in venues then 1 else 0
  {
    if venues != [] {
      var front, u := venues[..|venues| - 1], venues[|venues| - 1];
      ShownOnce(front, books, symbol, isBid, p, v);
      VenueCountConcat(AllTagged(front, books, symbol, isBid), TaggedOf(books, u, symbol, isBid), p, v);
      VenueOnce(books, u, symbol, isBid, p, v);
      assert v in venues <==> v in front || v == u;
    }
  }

  lemma VenueOnce(books: Books, u: nat, symbol: string, isBid: bool, p: int, v: nat)
    requires u in books && symbol in books[u] ==> WellKept(SideOf(books[u][symbol], isBid), isBid)
    ensures VenueCount(TaggedOf(books, u, symbol, isBid), p, v) <= if u == v then 1 else 0
  {
    var ts := TaggedOf(books, u, symbol, isBid);
    VenueCountAtMost(ts, p, v);
    if u in books && symbol in books[u] {
      SideAt(SideOf(books[u][symbol], isBid), u, isBid, p);
      forall i | 0 <= i < |ts| ensures ts[i].venue == u {
        TaggedShown(SideOf(books[u][symbol], isBid), u, ts[i]);
      }
    }
  }

  lemma {:induction false} QuotesOnce(ts: seq<Tagged>, p: int, a: (nat, int), b: (nat, int))
    requires VenueCount(ts, p, a.0) <= 1 && a.0 == b.0
    ensures QuotesAt(ts, p)[a] <= VenueCount(ts, p, a.0)
    ensures a in QuotesAt(ts, p) && b in QuotesAt(ts, p) ==> a == b
  {
    if ts != [] {
      var front, last := ts[..|ts| - 1], ts[|ts| - 1];
      QuotesOnce(front, p, a, b);
      QuotesOnce(front, p, b, a);
    }
  }

  lemma TwoListed(vs: seq<(nat, int)>, a: nat, b: nat)
    requires a < b < |vs|
    ensures vs[a] in multiset(vs) && vs[b] in multiset(vs) && (vs[a] == vs[b] ==> multiset(vs)[vs[a]] >= 2)
  {
    assert vs == vs[..a] + [vs[a]] + vs[a + 1..b] + [vs[b]] + vs[b + 1..];
  }

  lemma MergedMerges(ls: seq<AggLevel>, venues: seq<nat>, books: Books, symbol: string, isBid: bool)
    requires IsMerged(ls, AllTagged(venues, books, symbol, isBid), isBid)
    requires BooksKept(venues, books, symbol) && DistinctVenues(venues)
    ensures Merges(ls, venues, books, symbol, isBid)
  {
    var all := AllTagged(venues, books, symbol, isBid);
    hide AllTagged, VenueShows, QuotesAt, SumAt, CountAt, Listed, BooksKept;
    forall v, p, q | v in venues && VenueShows(books, v, symbol, isBid, p, q)
      ensures LevelLists(ls, p, v, q) || BeyondAll(ls, p, isBid)
    {
      AllShown(venues, books, symbol, isBid, Tagged(p, q, v));
      ListedOrBeyond(ls, all, isBid, Tagged(p, q, v));
    }
    forall m, e | 0 <= m < |ls| && e in ls[m].venues
      ensures e.0 in venues && VenueShows(books, e.0, symbol, isBid, ls[m].price, e.1)
    {
      ListedShown(ls[m], all, e);
      AllShown(venues, books, symbol, isBid, Tagged(ls[m].price, e.1, e.0));
    }
    forall m | 0 <= m < |ls| ensures ls[m].total == Listed(ls[m].venues) && EachOnce(ls[m].venues) {
      assert Shows(ls[m], all);
      ListedOnce(ls[m], venues, books, symbol, isBid);
    }
  }

  lemma ListedOrBeyond(ls: seq<AggLevel>, all: seq<Tagged>, isBid: bool, t: Tagged)
    requires IsMerged(ls, all, isBid) && t in all
    ensures LevelLists(ls, t.price, t.venue, t.quantity) || BeyondAll(ls, t.price, isBid)
  {
    var k :| 0 <= k < |all| && all[k] == t;
    if HasLevel(ls, all[k].price) {
      var m :| 0 <= m < |ls| && ls[m].price == t.price;
      assert Shows(ls[m], all);
      QuotesAre(all, t.price, (t.venue, t.quantity));
      assert (t.venue, t.quantity) in multiset(ls[m].venues);
    }
  }

  lemma ListedShown(l: AggLevel, all: seq<Tagged>, e: (nat, int))
    requires Shows(l, all) && e in l.venues
    ensures Tagged(l.price, e.1, e.0) in all
  {
    assert e in multiset(l.venues);
    QuotesAre(all, l.price, e);
  }

  lemma ListedOnce(l: AggLevel, venues: seq<nat>, books: Books, symbol: string, isBid: bool)
    requires Shows(l, AllTagged(venues, books, symbol, isBid)) && BooksKept(venues, books, symbol)
    requires DistinctVenues(venues)
    ensures EachOnce(l.venues)
  {
    var all := AllTagged(venues, books, symbol, isBid);
    forall a: nat, b: nat | a < b && b < |l.venues| ensures l.venues[a].0 != l.venues[b].0 {
      if l.venues[a].0 == l.venues[b].0 {
        ShownOnce(venues, books, symbol, isBid, l.price, l.venues[a].0);
        QuotesOnce(all, l.price, l.venues[a], l.venues[b]);
        TwoListed(l.venues, a, b);
      }
    }
  }

  /** Being merged depends on the quantities at each price only. */
  lemma MergedSame(ls: seq<AggLevel>, sorted: seq<Tagged>, all: seq<Tagged>, isBid: bool)
    requires IsMerged(ls, sorted, isBid) && SameAt(sorted, all)
    ensures IsMerged(ls, all, isBid)
  {
    forall k | 0 <= k < |ls| ensures Shows(ls[k], all) {
      assert SamePrice(sorted, all, ls[k].price);
    }
    forall k | 0 <= k < |all| ensures HasLevel(ls, all[k].price) || BeyondAll(ls, all[k].price, isBid) {
      var p := all[k].price;
      assert SamePrice(sorted, all, p);
      CountPresent(all, p);
      CountPresent(sorted, p);
      var i :| 0 <= i < |sorted| && sorted[i].price == p;
      assert HasLevel(ls, sorted[i].price) || BeyondAll(ls, sorted[i].price, isBid);
    }
  }
}
