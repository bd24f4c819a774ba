/** Whole-share LONG/CASH simulation over a session list, and why only the driven position matters. */
module Hyp009Portfolio {
  import opened Common
  import opened Hyp009Signals
  import opened Hyp009Schedule

  datatype Bar = Bar(open: real, close: real)

  datatype Dividend = Dividend(ex: int, payable: int, amount: real)

  datatype Trade = Trade(
    session: int, buy: bool, open: real, fill: real, quantity: int, notional: real, fees: real,
    cashBefore: real, cashAfter: real, sharesBefore: int, sharesAfter: int)

  datatype Equity = Equity(
    session: int, cash: real, shares: int, close: real, receivable: real, total: real,
    dailyReturn: Option<real>, peak: real, drawdown: real)

  datatype Book = Book(
    cash: real, shares: int, state: State, receivables: seq<(int, real)>, peak: real, previous: Option<real>,
    trades: seq<Trade>, curve: seq<Equity>, feesPaid: real, dividendsReceived: real)

  datatype Error =
    | SessionsUnordered | NonPositiveAum | NonPositiveDividend | MissingPrice(int) | NonPositivePrice(int)
    | ZeroSharesBuy(int) | InsufficientCash(int) | NegativeCash(int) | FeeRefused(int) | NonPositivePrevious(int)

  /** Market and cost inputs: prices, dividends, slippage in basis points, and the sell-side fee schedule
      (session, shares, principal), which may refuse. */
  datatype Market = Market(
    bars: map<int, Bar>, dividends: seq<Dividend>, slippage: real, fees: (int, int, real) -> Option<real>)

  function OpeningBook(aum: real): Book {
    Book(aum, 0, CASH, [], aum, None, [], [], 0.0, 0.0)
  }

  // ----- One session -----

  function Owed(d: Dividend, shares: int): (int, real) {
    (d.payable, shares as real * d.amount)
  }

  /** Entitlements of the shares held at the previous close. */
  function Entitled(dividends: seq<Dividend>, session: int, shares: int): seq<(int, real)> {
    if dividends == [] || shares <= 0 then []
    else
      var d := dividends[|dividends| - 1];
      var earlier := Entitled(dividends[..|dividends| - 1], session, shares);
      if d.ex == session then earlier + [Owed(d, shares)] else earlier
  }

  function Total(xs: seq<(int, real)>): real {
    if xs == [] then 0.0 else Total(xs[..|xs| - 1]) + xs[|xs| - 1].1
  }

  function Due(xs: seq<(int, real)>, session: int): seq<(int, real)> {
    if xs == [] then []
    else
      var earlier := Due(xs[..|xs| - 1], session);
      if xs[|xs| - 1].0 <= session then earlier + [xs[|xs| - 1]] else earlier
  }

  function Outstanding(xs: seq<(int, real)>, session: int): seq<(int, real)> {
    if xs == [] then []
    else
      var earlier := Outstanding(xs[..|xs| - 1], session);
      if xs[|xs| - 1].0 <= session then earlier else earlier + [xs[|xs| - 1]]
  }

  function Collect(m: Market, session: int, b: Book): Book {
    var entitled := Entitled(m.dividends, session, b.shares);
    var all := b.receivables + entitled;
    b.(cash := b.cash + Total(Due(all, session)), receivables := Outstanding(all, session),
       dividendsReceived := b.dividendsReceived + Total(entitled))
  }

  /** Adverse fills: a buy pays up, a sale receives less. */
  function BuyFill(m: Market, open: real): (r: real)
    requires open > 0.0 && m.slippage >= 0.0
    ensures r >= open
  {
    open * (1.0 + m.slippage / 10000.0)
  }

  function SellFill(m: Market, open: real): real {
    open * (1.0 - m.slippage / 10000.0)
  }

  function Buy(session: int, open: real, fill: real, b: Book): Result<Book, Error>
    requires fill > 0.0
  {
    var quantity := (b.cash / fill).Floor;
    var notional := fill * quantity as real;
    if quantity <= 0 then Err(ZeroSharesBuy(session))
    else if notional > b.cash then Err(InsufficientCash(session))
    else if b.cash - notional < 0.0 then Err(NegativeCash(session))
    else
      var t := Trade(session, true, open, fill, quantity, notional, 0.0,
                     b.cash, b.cash - notional, b.shares, b.shares + quantity);
      Ok(b.(cash := t.cashAfter, shares := t.sharesAfter, state := LONG, trades := b.trades + [t]))
  }

  /** Principal of a sale. */
  function Proceeds(fill: real, shares: int): real {
    fill * shares as real
  }

  function Sell(m: Market, session: int, open: real, fill: real, b: Book): Result<Book, Error> {
    var proceeds := Proceeds(fill, b.shares);
    match m.fees(session, b.shares, proceeds)
    case None => Err(FeeRefused(session))
    case Some(friction) =>
      var t := Trade(session, false, open, fill, b.shares, proceeds, friction,
                     b.cash, b.cash + proceeds - friction, b.shares, 0);
      Ok(b.(cash := t.cashAfter, shares := 0, state := CASH, trades := b.trades + [t],
            feesPaid := b.feesPaid + friction))
  }

  /** Trade only on a change of state. */
  function Follow(m: Market, session: int, open: real, target: State, b: Book): Result<Book, Error>
    requires open > 0.0 && m.slippage >= 0.0
  {
    if target == b.state then Ok(b)
    else if target == LONG then Buy(session, open, BuyFill(m, open), b)
    else Sell(m, session, open, SellFill(m, open), b)
  }

  function Mark(session: int, close: real, b: Book): Result<Book, Error> {
    var receivable := Total(b.receivables);
    var equity := b.cash + b.shares as real * close + receivable;
    var peak := if equity > b.peak then equity else b.peak;
    var drawdown := if peak > 0.0 then (peak - equity) / peak else 0.0;
    if b.previous.Some? && b.previous.value <= 0.0 then Err(NonPositivePrevious(session))
    else
      var daily := if b.previous.Some? then Some(equity / b.previous.value - 1.0) else None;
      var e := Equity(session, b.cash, b.shares, close, receivable, equity, daily, peak, drawdown);
      Ok(b.(peak := peak, previous := Some(equity), curve := b.curve + [e]))
  }

  function Day(m: Market, target: map<int, State>, session: int, b: Book): Result<Book, Error>
    requires m.slippage >= 0.0
  {
    if session !in m.bars then Err(MissingPrice(session))
    else
      var bar := m.bars[session];
      if bar.open <= 0.0 || bar.close <= 0.0 then Err(NonPositivePrice(session))
      else
        var paid := Collect(m, session, b);
        match Follow(m, session, bar.open, if session in target then target[session] else paid.state, paid)
        case Err(e) => Err(e)
        case Ok(traded) => Mark(session, bar.close, traded)
  }

  /** The book after every session of the list. */
  function Simulate(m: Market, target: map<int, State>, sessions: seq<int>, aum: real): Result<Book, Error>
    requires m.slippage >= 0.0
  {
    if sessions == [] then Ok(OpeningBook(aum))
    else
      match Simulate(m, target, sessions[..|sessions| - 1], aum)
      case Err(e) => Err(e)
      case Ok(b) => Day(m, target, sessions[|sessions| - 1], b)
  }

  // ----- The loop -----

  predicate Ordered(sessions: seq<int>) {
    sessions != [] && forall i :: 0 <= i < |sessions| - 1 ==> sessions[i] < sessions[i + 1]
  }

  function Portfolio(m: Market, target: map<int, State>, sessions: seq<int>, aum: real): Result<Book, Error>
    requires m.slippage >= 0.0
  {
    if !Ordered(sessions) then Err(SessionsUnordered)
    else if aum <= 0.0 then Err(NonPositiveAum)
    else if exists d | d in m.dividends :: d.amount <= 0.0 then Err(NonPositiveDividend)
    else Simulate(m, target, sessions, aum)
  }

  method RunPortfolio(m: Market, target: map<int, State>, sessions: seq<int>, aum: real) returns (r: Result<Book, Error>)
    requires m.slippage >= 0.0
    ensures r == Portfolio(m, target, sessions, aum)
  {
    if !Ordered(sessions) {
      return Err(SessionsUnordered);
    }
    if aum <= 0.0 {
      return Err(NonPositiveAum);
    }
    for i := 0 to |m.dividends|
      invariant forall d | d in m.dividends[..i] :: d.amount > 0.0
    {
      if m.dividends[i].amount <= 0.0 {
        return Err(NonPositiveDividend);
      }
    }
    var book := OpeningBook(aum);
    for i := 0 to |sessions|
      invariant Simulate(m, target, sessions[..i], aum) == Ok(book)
    {
      assert sessions[..i + 1][..i] == sessions[..i];
      SimulateStops(m, target, sessions, aum, i + 1);
      var today := RunSession(m, target, sessions[i], book);
      if today.Err? {
        return today;
      }
      book := today.value;
    }
    assert sessions[..|sessions|] == sessions;
    return Ok(book);
  }

  /** One pass of the loop body: settle, trade at the open on a change of state, mark at the close. */
  method RunSession(m: Market, target: map<int, State>, session: int, book: Book) returns (r: Result<Book, Error>)
    requires m.slippage >= 0.0
    ensures r == Day(m, target, session, book)
  {
    if session !in m.bars {
      return Err(MissingPrice(session));
    }
    var bar := m.bars[session];
    if bar.open <= 0.0 || bar.close <= 0.0 {
      return Err(NonPositivePrice(session));
    }
    var entitled, gained := Entitle(m.dividends, session, book.shares);
    var cash, receivables := Settle(book.receivables + entitled, session, book.cash);
    var now := book.(cash := cash, receivables := receivables, dividendsReceived := book.dividendsReceived + gained);
    if session in target && target[session] != now.state {
      var traded :=
        if target[session] == LONG then Buy(session, bar.open, BuyFill(m, bar.open), now)
        else Sell(m, session, bar.open, SellFill(m, bar.open), now);
      if traded.Err? {
        return traded;
      }
      now := traded.value;
    }
    r := Mark(session, bar.close, now);
  }

  lemma EntitledThrough(dividends: seq<Dividend>, i: nat, session: int, shares: int)
    requires i < |dividends|
    ensures var d, earlier := dividends[i], Entitled(dividends[..i], session, shares);
      Entitled(dividends[..i + 1], session, shares)
      == if d.ex == session && shares > 0 then earlier + [Owed(d, shares)] else earlier
  {
    assert dividends[..i + 1][..i] == dividends[..i];
  }

  /** Shares held at the previous close own today's ex-dates. */
  method Entitle(dividends: seq<Dividend>, session: int, shares: int)
    returns (entitled: seq<(int, real)>, gained: real)
    ensures entitled == Entitled(dividends, session, shares) && gained == Total(entitled)
  {
    entitled, gained := [], 0.0;
    for i := 0 to |dividends|
      invariant entitled == Entitled(dividends[..i], session, shares)
      invariant gained == Total(entitled)
    {
      EntitledThrough(dividends, i, session, shares);
      if dividends[i].ex == session && shares > 0 {
        var receivable := Owed(dividends[i], shares);
        TotalOfSum(entitled, [receivable]);
        entitled := entitled + [receivable];
        gained := gained + receivable.1;
      }
    }
    assert dividends[..|dividends|] == dividends;
  }

  /** Everything payable on or before today becomes cash, before trading. */
  method Settle(receivables: seq<(int, real)>, session: int, cash: real) returns (after: real, still: seq<(int, real)>)
    ensures after == cash + Total(Due(receivables, session))
    ensures still == Outstanding(receivables, session)
  {
    after, still := cash, [];
    for i := 0 to |receivables|
      invariant after == cash + Total(Due(receivables[..i], session))
      invariant still == Outstanding(receivables[..i], session)
    {
      assert receivables[..i + 1][..i] == receivables[..i];
      if receivables[i].0 <= session {
        TotalOfSum(Due(receivables[..i], session), [receivables[i]]);
        after := after + receivables[i].1;
      } else {
        still := still + [receivables[i]];
      }
    }
    assert receivables[..|receivables|] == receivables;
  }

  lemma {:induction false} TotalOfSum(a: seq<(int, real)>, b: seq<(int, real)>)
    ensures Total(a + b) == Total(a) + Total(b)
  {
    if b == [] {
      assert a + b == a;
    } else {
      TotalOfSum(a, b[..|b| - 1]);
      assert (a + b)[..|a + b| - 1] == a + b[..|b| - 1];
    }
  }

  /** A refusal on a prefix is the refusal of the whole run. */
  lemma {:induction false} SimulateStops(m: Market, target: map<int, State>, sessions: seq<int>, aum: real, n: nat)
    requires m.slippage >= 0.0 && n <= |sessions|
    ensures Simulate(m, target, sessions[..n], aum).Err?
        ==> Simulate(m, target, sessions, aum) == Simulate(m, target, sessions[..n], aum)
    decreases |sessions|
  {
    if n == |sessions| {
      assert sessions[..n] == sessions;
    } else {
      var front := sessions[..|sessions| - 1];
      SimulateStops(m, target, front, aum, n);
      assert front[..n] == sessions[..n];
    }
  }

  // ----- Conservation -----

  /** Cash spent on buys less net sale proceeds. */
  function Spent(trades: seq<Trade>): real {
    if trades == [] then 0.0
    else
      var t := trades[|trades| - 1];
      Spent(trades[..|trades| - 1]) + if t.buy then t.notional else t.fees - t.notional
  }

  /** Every dollar is accounted for: cash plus what is still owed is the starting balance plus every
      dividend credited, less what the trades spent. */
  ghost predicate Balanced(b: Book, aum: real) {
    b.cash + Total(b.receivables) == aum + b.dividendsReceived - Spent(b.trades)
  }

  /** Trades alternate, buying first; a sale sells exactly what the buy before it bought; the book holds
      the last buy's shares while LONG and none while in CASH. */
  ghost predicate Alternating(b: Book) {
    && (forall i :: 0 <= i < |b.trades| ==> b.trades[i].buy == (i % 2 == 0))
    && (forall i :: 0 <= i < |b.trades| - 1 ==>
          b.trades[i].buy ==> b.trades[i + 1].quantity == b.trades[i].quantity)
    && (b.state == LONG <==> |b.trades| % 2 == 1)
    && b.shares == (if b.state == LONG then b.trades[|b.trades| - 1].quantity else 0)
    && (b.state == LONG ==> b.shares > 0)
  }

  lemma {:induction false} Divided(xs: seq<(int, real)>, session: int)
    ensures Total(xs) == Total(Due(xs, session)) + Total(Outstanding(xs, session))
    ensures forall x | x in Outstanding(xs, session) :: session < x.0
  {
    if xs != [] {
      Divided(xs[..|xs| - 1], session);
    }
  }

  lemma CollectConserves(m: Market, session: int, b: Book, aum: real)
    requires Balanced(b, aum)
    ensures Balanced(Collect(m, session, b), aum)
  {
    var entitled := Entitled(m.dividends, session, b.shares);
    TotalOfSum(b.receivables, entitled);
    Divided(b.receivables + entitled, session);
  }

  lemma FollowConserves(m: Market, session: int, open: real, target: State, b: Book, aum: real)
    requires open > 0.0 && m.slippage >= 0.0 && Balanced(b, aum) && Alternating(b)
    ensures var r := Follow(m, session, open, target, b);
      r.Ok? ==> Balanced(r.value, aum) && Alternating(r.value) && r.value.state == target
  {
    var r := Follow(m, session, open, target, b);
    if r.Ok? && target != b.state {
      assert r.value.trades[..|b.trades|] == b.trades;
    }
  }

  lemma DayConserves(m: Market, target: map<int, State>, session: int, b: Book, aum: real)
    requires m.slippage >= 0.0 && Balanced(b, aum) && Alternating(b)
    ensures var r := Day(m, target, session, b);
      r.Ok? ==> Balanced(r.value, aum) && Alternating(r.value) && |r.value.curve| == |b.curve| + 1
  {
    if Day(m, target, session, b).Ok? {
      var paid := Collect(m, session, b);
      CollectConserves(m, session, b, aum);
      FollowConserves(m, session, m.bars[session].open,
                      if session in target then target[session] else paid.state, paid, aum);
    }
  }

  /** Conservation over any run, with the trades alternating. */
  lemma {:induction false} BookBalances(m: Market, target: map<int, State>, sessions: seq<int>, aum: real)
    requires m.slippage >= 0.0
    ensures var r := Simulate(m, target, sessions, aum);
      r.Ok? ==> Balanced(r.value, aum) && Alternating(r.value) && |r.value.curve| == |sessions|
  {
    if sessions != [] {
      var front := sessions[..|sessions| - 1];
      BookBalances(m, target, front, aum);
      var before := Simulate(m, target, front, aum);
      if before.Ok? {
        DayConserves(m, target, sessions[|sessions| - 1], before.value, aum);
      }
    }
  }

  lemma Remainder(cash: real, fill: real, ratio: real, n: real)
    requires fill > 0.0 && fill * ratio == cash && n <= ratio < n + 1.0
    ensures 0.0 <= cash - fill * n < fill
  {
    var part := ratio - n;
    assert fill * part == fill * ratio - fill * n;
    assert 0.0 <= fill * part;
    assert fill * part < fill;
    assert cash - fill * n == fill * part;
    assert cash - fill * n < fill;
  }

  lemma AtLeastOne(cash: real, fill: real, ratio: real)
    requires fill > 0.0 && fill * ratio == cash
    ensures 1.0 <= ratio <==> fill <= cash
  {
    if ratio < 1.0 {
      assert fill * ratio < fill;
    } else if 1.0 < ratio {
      assert fill < fill * ratio;
    }
  }

  lemma WholeShares(cash: real, fill: real, quantity: int)
    requires fill > 0.0 && quantity == (cash / fill).Floor
    ensures 0.0 <= cash - fill * quantity as real < fill
    ensures 0 < quantity <==> fill <= cash
  {
    Remainder(cash, fill, cash / fill, quantity as real);
    AtLeastOne(cash, fill, cash / fill);
  }

  /** A buy never fails for want of cash once it can afford one share: the two later cash checks of the
      source cannot fire, and the buy leaves less than one fill price. */
  lemma BuyIsAffordable(session: int, open: real, fill: real, b: Book)
    requires fill > 0.0
    ensures var r := Buy(session, open, fill, b);
      && (r.Ok? <==> fill <= b.cash)
      && (r.Err? ==> r.error == ZeroSharesBuy(session))
      && (r.Ok? ==> 0.0 <= r.value.cash < fill)
  {
    WholeShares(b.cash, fill, (b.cash / fill).Floor);
  }

  /** The fees of the trades. */
  function Fees(trades: seq<Trade>): real {
    if trades == [] then 0.0 else Fees(trades[..|trades| - 1]) + trades[|trades| - 1].fees
  }

  lemma FollowPays(m: Market, session: int, open: real, target: State, b: Book)
    requires open > 0.0 && m.slippage >= 0.0 && Follow(m, session, open, target, b).Ok? && b.feesPaid == Fees(b.trades)
    ensures Follow(m, session, open, target, b).value.feesPaid == Fees(Follow(m, session, open, target, b).value.trades)
  {
    var r := Follow(m, session, open, target, b).value;
    if r.trades != b.trades {
      assert r.trades[..|b.trades|] == b.trades;
    }
  }

  lemma DayPays(m: Market, target: map<int, State>, session: int, b: Book)
    requires m.slippage >= 0.0 && Day(m, target, session, b).Ok? && b.feesPaid == Fees(b.trades)
    ensures Day(m, target, session, b).value.feesPaid == Fees(Day(m, target, session, b).value.trades)
  {
    var paid := Collect(m, session, b);
    FollowPays(m, session, m.bars[session].open, if session in target then target[session] else paid.state, paid);
  }

  /** The fees a run reports are those of its trades. */
  lemma {:induction false} FeesAreReported(m: Market, target: map<int, State>, sessions: seq<int>, aum: real)
    requires m.slippage >= 0.0
    ensures var r := Simulate(m, target, sessions, aum);
      r.Ok? ==> r.value.feesPaid == Fees(r.value.trades)
  {
    if sessions != [] {
      FeesAreReported(m, target, sessions[..|sessions| - 1], aum);
      var before := Simulate(m, target, sessions[..|sessions| - 1], aum);
      if before.Ok? && Day(m, target, sessions[|sessions| - 1], before.value).Ok? {
        DayPays(m, target, sessions[|sessions| - 1], before.value);
      }
    }
  }

  // ----- Trades -----

  /** A trade as recorded: at its session's open made worse by the slippage, for the whole position, the
      buy leaving less cash than one more share costs, the sale paying the scheduled fees. */
  ghost predicate Executed(m: Market, t: Trade)
    requires m.slippage >= 0.0
  {
    && t.session in m.bars && m.bars[t.session].open == t.open > 0.0
    && t.quantity > 0 && t.notional == t.fill * t.quantity as real
    && if t.buy then
         && t.fill == BuyFill(m, t.open) && t.fees == 0.0
         && t.sharesBefore == 0 && t.sharesAfter == t.quantity
         && t.cashAfter == t.cashBefore - t.notional && 0.0 <= t.cashAfter < t.fill
       else
         && t.fill == SellFill(m, t.open) && m.fees(t.session, t.quantity, t.notional) == Some(t.fees)
         && t.sharesBefore == t.quantity && t.sharesAfter == 0
         && t.cashAfter == t.cashBefore + t.notional - t.fees
  }

  /** Slippage costs a buy and a sale at the same open the same amount per share: the open times the basis
      points, ten thousand to the whole. */
  lemma FillsAreAdverse(m: Market, open: real)
    requires open > 0.0 && m.slippage >= 0.0
    ensures BuyFill(m, open) - open == open - SellFill(m, open) >= 0.0
    ensures 10000.0 * (BuyFill(m, open) - open) == open * m.slippage
  {
    var factor := m.slippage / 10000.0;
    assert open * (1.0 + factor) == open + open * factor;
    assert open * (1.0 - factor) == open - open * factor;
    assert 10000.0 * factor == m.slippage;
    assert 10000.0 * (open * factor) == open * (10000.0 * factor);
  }

  /** The gates of one session, apart from trading. */
  predicate Priced(m: Market, session: int) {
    session in m.bars && m.bars[session].open > 0.0 && m.bars[session].close > 0.0
  }

  /** The trade of one session can be made: one share is affordable, or the fees of the sale are known. */
  predicate Tradable(m: Market, session: int, wanted: State, paid: Book)
    requires Priced(m, session) && m.slippage >= 0.0
  {
    && (paid.state == CASH && wanted == LONG ==> BuyFill(m, m.bars[session].open) <= paid.cash)
    && (paid.state == LONG && wanted == CASH ==>
          m.fees(session, paid.shares, Proceeds(SellFill(m, m.bars[session].open), paid.shares)).Some?)
  }

  lemma FollowExactly(m: Market, session: int, wanted: State, b: Book)
    requires Priced(m, session) && m.slippage >= 0.0
    ensures Follow(m, session, m.bars[session].open, wanted, b).Ok? <==> Tradable(m, session, wanted, b)
  {
    var open := m.bars[session].open;
    if b.state == CASH && wanted == LONG {
      BuyIsAffordable(session, open, BuyFill(m, open), b);
      assert Follow(m, session, open, wanted, b) == Buy(session, open, BuyFill(m, open), b);
    } else if b.state == LONG && wanted == CASH {
      SaleExactly(m, session, open, SellFill(m, open), b);
      assert Follow(m, session, open, wanted, b) == Sell(m, session, open, SellFill(m, open), b);
    }
  }

  lemma SaleExactly(m: Market, session: int, open: real, fill: real, b: Book)
    ensures Sell(m, session, open, fill, b).Ok? <==> m.fees(session, b.shares, Proceeds(fill, b.shares)).Some?
  {
  }

  /** Which lists and balances are refused before the first session; a run that starts is the simulation. */
  lemma PortfolioExactly(m: Market, target: map<int, State>, sessions: seq<int>, aum: real)
    requires m.slippage >= 0.0
    ensures var r := Portfolio(m, target, sessions, aum);
      var ordered := sessions != [] && Increasing(sessions);
      && (!ordered ==> r == Err(SessionsUnordered))
      && (ordered && aum <= 0.0 ==> r == Err(NonPositiveAum))
      && (ordered && aum > 0.0 && (exists d | d in m.dividends :: d.amount <= 0.0) ==> r == Err(NonPositiveDividend))
      && (ordered && aum > 0.0 && (forall d | d in m.dividends :: d.amount > 0.0) ==>
            r == Simulate(m, target, sessions, aum))
  {
    if Ordered(sessions) {
      NeighboursIncrease(sessions);
    } else if sessions != [] {
      var i :| 0 <= i < |sessions| - 1 && sessions[i] >= sessions[i + 1];
      assert !Increasing(sessions);
    }
  }

  lemma {:induction false} NeighboursIncrease(sessions: seq<int>)
    requires forall i :: 0 <= i < |sessions| - 1 ==> sessions[i] < sessions[i + 1]
    ensures Increasing(sessions)
  {
    if |sessions| > 1 {
      var front := sessions[..|sessions| - 1];
      NeighboursIncrease(front);
      forall i, j | 0 <= i < j < |sessions|
        ensures sessions[i] < sessions[j]
      {
        assert i < |front| && (j < |front| ==> front[i] < front[j]) && (i < |front| - 1 ==> front[i] < front[|front| - 1]);
        assert sessions[|front| - 1] < sessions[|front|];
      }
    }
  }

  /** Exactly when a session goes through: it has positive prices, its trade, if the schedule changes the
      state, can be made, and the value before it is positive. */
  lemma DayExactly(m: Market, target: map<int, State>, session: int, b: Book)
    requires m.slippage >= 0.0
    ensures Day(m, target, session, b).Ok? <==>
      && Priced(m, session)
      && Tradable(m, session, if session in target then target[session] else b.state, Collect(m, session, b))
      && (b.previous.Some? ==> b.previous.value > 0.0)
  {
    if Priced(m, session) {
      var paid := Collect(m, session, b);
      var wanted := if session in target then target[session] else b.state;
      FollowExactly(m, session, wanted, paid);
      if Follow(m, session, m.bars[session].open, wanted, paid).Ok? {
        FollowLeavesCurve(m, session, m.bars[session].open, wanted, paid);
      }
    }
  }

  /** At most one more trade, executed in the given session. */
  ghost predicate Extended(m: Market, before: seq<Trade>, after: seq<Trade>, session: int)
    requires m.slippage >= 0.0
  {
    || after == before
    || (&& |after| == |before| + 1 && before == after[..|before|]
        && Executed(m, after[|before|]) && after[|before|].session == session)
  }

  lemma FollowExecutes(m: Market, session: int, target: State, b: Book)
    requires m.slippage >= 0.0 && session in m.bars && m.bars[session].open > 0.0 && Alternating(b)
    ensures var r := Follow(m, session, m.bars[session].open, target, b);
      r.Ok? ==> Extended(m, b.trades, r.value.trades, session)
  {
    var open := m.bars[session].open;
    if target == LONG && b.state == CASH {
      BuyIsAffordable(session, open, BuyFill(m, open), b);
    }
  }

  lemma DayExecutes(m: Market, target: map<int, State>, session: int, b: Book)
    requires m.slippage >= 0.0 && Alternating(b) && Day(m, target, session, b).Ok?
    ensures Extended(m, b.trades, Day(m, target, session, b).value.trades, session)
  {
    var paid := Collect(m, session, b);
    FollowExecutes(m, session, if session in target then target[session] else paid.state, paid);
  }

  /** Trades executed as recorded, one at most per session, in session order. */
  ghost predicate AllExecuted(m: Market, trades: seq<Trade>, sessions: seq<int>)
    requires m.slippage >= 0.0
  {
    && (forall i :: 0 <= i < |trades| ==> Executed(m, trades[i]) && trades[i].session in sessions)
    && (forall i, j :: 0 <= i < j < |trades| ==> trades[i].session < trades[j].session)
  }

  lemma ExtendedStaysExecuted(m: Market, before: seq<Trade>, after: seq<Trade>, sessions: seq<int>, session: int)
    requires m.slippage >= 0.0 && AllExecuted(m, before, sessions) && Extended(m, before, after, session)
    requires forall s | s in sessions :: s < session
    ensures AllExecuted(m, after, sessions + [session])
  {
    assert forall i :: 0 <= i < |before| ==> after[i] == before[i];
  }

  /** Every trade of any run is executed as recorded. */
  lemma {:induction false} TradesAreExecuted(m: Market, target: map<int, State>, sessions: seq<int>, aum: real)
    requires m.slippage >= 0.0 && Increasing(sessions) && Simulate(m, target, sessions, aum).Ok?
    ensures AllExecuted(m, Simulate(m, target, sessions, aum).value.trades, sessions)
  {
    if sessions != [] {
      var front, session := sessions[..|sessions| - 1], sessions[|sessions| - 1];
      TradesAreExecuted(m, target, front, aum);
      BookBalances(m, target, front, aum);
      var before := Simulate(m, target, front, aum).value;
      DayExecutes(m, target, session, before);
      ExtendedStaysExecuted(m, before.trades, Simulate(m, target, sessions, aum).value.trades, front, session);
      assert front + [session] == sessions;
    }
  }

  // ----- The equity curve -----

  /** The peak of record i is the highest value reached so far, the starting balance included. */
  ghost predicate Peaked(curve: seq<Equity>, aum: real, i: nat)
    requires i < |curve|
  {
    && aum <= curve[i].peak && (forall j :: 0 <= j <= i ==> curve[j].total <= curve[i].peak)
    && (curve[i].peak == aum || exists j :: 0 <= j <= i && curve[j].total == curve[i].peak)
  }

  /** Record i of a curve: its own session, the value of everything held, the return against the record
      before it, and the drawdown from the peak. */
  ghost predicate Recorded(curve: seq<Equity>, sessions: seq<int>, i: nat)
    requires i < |curve| && i < |sessions|
  {
    var e := curve[i];
    && e.session == sessions[i]
    && e.total == e.cash + e.shares as real * e.close + e.receivable
    && (if i == 0 then e.dailyReturn == None
        else curve[i - 1].total > 0.0 && e.dailyReturn == Some(e.total / curve[i - 1].total - 1.0))
    && e.peak > 0.0 && e.drawdown == (e.peak - e.total) / e.peak
  }

  /** The book carries the last record's peak and value. */
  ghost predicate Carried(b: Book, sessions: seq<int>, aum: real) {
    && |b.curve| == |sessions|
    && (forall i :: 0 <= i < |b.curve| ==> Recorded(b.curve, sessions, i))
    && (forall i :: 0 <= i < |b.curve| ==> Peaked(b.curve, aum, i))
    && (if b.curve == [] then b.peak == aum && b.previous == None
        else b.peak == b.curve[|b.curve| - 1].peak && b.previous == Some(b.curve[|b.curve| - 1].total))
  }

  lemma MarkPeaks(b: Book, sessions: seq<int>, session: int, close: real, aum: real)
    requires Carried(b, sessions, aum) && Mark(session, close, b).Ok?
    ensures Peaked(Mark(session, close, b).value.curve, aum, |sessions|)
  {
    var n, before, after := |sessions|, b.curve, Mark(session, close, b).value.curve;
    assert forall j :: 0 <= j < n ==> after[j] == before[j];
    if n > 0 {
      assert Peaked(before, aum, n - 1);
      if before[n - 1].peak != aum {
        var j :| 0 <= j <= n - 1 && before[j].total == before[n - 1].peak;
        assert after[j].total == before[n - 1].peak;
      }
    }
    assert after[n].peak == after[n].total || after[n].peak == b.peak;
  }

  lemma MarkRecords(b: Book, sessions: seq<int>, session: int, close: real)
    requires |b.curve| == |sessions| && b.peak > 0.0 && Mark(session, close, b).Ok?
    requires b.previous == if b.curve == [] then None else Some(b.curve[|b.curve| - 1].total)
    ensures Recorded(Mark(session, close, b).value.curve, sessions + [session], |sessions|)
  {
  }

  lemma RecordsStay(curve: seq<Equity>, e: Equity, sessions: seq<int>, session: int, aum: real, i: nat)
    requires i < |curve| == |sessions|
    ensures Recorded(curve, sessions, i) ==> Recorded(curve + [e], sessions + [session], i)
    ensures Peaked(curve, aum, i) ==> Peaked(curve + [e], aum, i)
  {
    var longer := curve + [e];
    assert forall j :: 0 <= j <= i ==> longer[j] == curve[j];
    if Peaked(curve, aum, i) && curve[i].peak != aum {
      var j :| 0 <= j <= i && curve[j].total == curve[i].peak;
      assert longer[j].total == longer[i].peak;
    }
  }

  lemma MarkCarries(b: Book, sessions: seq<int>, session: int, close: real, aum: real)
    requires Carried(b, sessions, aum) && aum > 0.0 && Mark(session, close, b).Ok?
    ensures Carried(Mark(session, close, b).value, sessions + [session], aum)
  {
    var after := Mark(session, close, b).value.curve;
    if b.curve != [] {
      assert Peaked(b.curve, aum, |b.curve| - 1);
    }
    MarkPeaks(b, sessions, session, close, aum);
    MarkRecords(b, sessions, session, close);
    forall i | 0 <= i < |after|
      ensures Recorded(after, sessions + [session], i) && Peaked(after, aum, i)
    {
      if i < |b.curve| {
        assert Recorded(b.curve, sessions, i) && Peaked(b.curve, aum, i);
        RecordsStay(b.curve, after[|b.curve|], sessions, session, aum, i);
      }
    }
  }

  lemma FollowLeavesCurve(m: Market, session: int, open: real, target: State, b: Book)
    requires open > 0.0 && m.slippage >= 0.0
    ensures var r := Follow(m, session, open, target, b);
      r.Ok? ==> r.value.curve == b.curve && r.value.peak == b.peak && r.value.previous == b.previous
  {
  }

  lemma DayCarries(m: Market, target: map<int, State>, session: int, b: Book, sessions: seq<int>, aum: real)
    requires m.slippage >= 0.0 && aum > 0.0 && Carried(b, sessions, aum)
    requires Day(m, target, session, b).Ok?
    ensures Carried(Day(m, target, session, b).value, sessions + [session], aum)
  {
    var paid, bar := Collect(m, session, b), m.bars[session];
    var wanted := if session in target then target[session] else paid.state;
    FollowLeavesCurve(m, session, bar.open, wanted, paid);
    MarkCarries(Follow(m, session, bar.open, wanted, paid).value, sessions, session, bar.close, aum);
  }

  /** The equity curve of any run is right at every session. */
  lemma {:induction false} CurveIsRecorded(m: Market, target: map<int, State>, sessions: seq<int>, aum: real)
    requires m.slippage >= 0.0 && aum > 0.0
    ensures var r := Simulate(m, target, sessions, aum);
      r.Ok? ==> Carried(r.value, sessions, aum)
  {
    if sessions != [] {
      var front, session := sessions[..|sessions| - 1], sessions[|sessions| - 1];
      CurveIsRecorded(m, target, front, aum);
      assert front + [session] == sessions;
      var before := Simulate(m, target, front, aum);
      if before.Ok? && Day(m, target, session, before.value).Ok? {
        DayCarries(m, target, session, before.value, front, aum);
      }
    }
  }

  // ----- Only the driven position matters -----

  /** The simulation holds what the schedule says. */
  lemma {:induction false} BookFollowsSchedule(m: Market, target: map<int, State>, sessions: seq<int>, aum: real)
    requires m.slippage >= 0.0
    ensures var r := Simulate(m, target, sessions, aum);
      r.Ok? ==> r.value.state == Held(sessions, target, |sessions|)
  {
    if sessions != [] {
      var front := sessions[..|sessions| - 1];
      BookFollowsSchedule(m, target, front, aum);
      HeldOnPrefix(sessions, target, |front|);
    }
  }

  lemma {:induction false} HeldOnPrefix(sessions: seq<int>, target: map<int, State>, n: nat)
    requires n < |sessions|
    ensures Held(sessions[..|sessions| - 1], target, n) == Held(sessions, target, n)
    decreases n
  {
    if n > 0 {
      HeldOnPrefix(sessions, target, n - 1);
    }
  }

  /** Two schedules that drive the same positions give the same whole result: the same trades, equity
      curve, balances, or the same refusal. */
  lemma {:induction false} OnlyPositionsMatter(
    m: Market, a: map<int, State>, b: map<int, State>, sessions: seq<int>, aum: real)
    requires m.slippage >= 0.0
    requires forall n :: 0 <= n <= |sessions| ==> Held(sessions, a, n) == Held(sessions, b, n)
    ensures Simulate(m, a, sessions, aum) == Simulate(m, b, sessions, aum)
  {
    if sessions != [] {
      var front, last := sessions[..|sessions| - 1], sessions[|sessions| - 1];
      forall n | 0 <= n <= |front|
        ensures Held(front, a, n) == Held(front, b, n)
      {
        HeldOnPrefix(sessions, a, n);
        HeldOnPrefix(sessions, b, n);
      }
      OnlyPositionsMatter(m, a, b, front, aum);
      BookFollowsSchedule(m, a, front, aum);
      HeldOnPrefix(sessions, a, |front|);
      var r := Simulate(m, a, front, aum);
      if r.Ok? {
        assert r.value.state == Held(sessions, a, |front|);
        var held := r.value.state;
        assert Held(sessions, a, |sessions|) == if last in a then a[last] else held;
        assert Held(sessions, b, |sessions|) == if last in b then b[last] else held;
        assert Day(m, a, last, r.value) == Day(m, b, last, r.value);
      }
    }
  }

  lemma StitchedSignalsAreChained(tail: seq<real>, levels: seq<real>, dates: seq<int>)
    requires |tail| == 9 && |levels| == |dates|
    ensures Chained(StitchedSpec(tail, levels, dates))
    ensures forall i :: 0 <= i < |levels| ==> StitchedSpec(tail, levels, dates)[i].decision == dates[i]
  {
    var signals := StitchedSpec(tail, levels, dates);
    assert tail[|tail| - 9..] == tail;
    forall i | 0 <= i < |signals|
      ensures signals[i].transition == (signals[i].state != LastState(signals[..i]))
      ensures signals[i].decision == dates[i]
    {
      StitchedSignalIsNaive(tail, levels, dates, i);
      if i > 0 {
        StitchedSignalIsNaive(tail, levels, dates, i - 1);
        assert signals[..i][i - 1] == signals[i - 1];
      }
    }
  }

  lemma MonthEndSignalsAreDated(sessions: seq<int>, month: int -> int, cutoff: int, tail: seq<real>, levels: seq<real>)
    requires Increasing(sessions) && Monotone(month) && (sessions != [] ==> cutoff < sessions[0])
    requires |tail| == 9 && |levels| == |MonthEnds(sessions, month)|
    ensures Dated(sessions, cutoff, StitchedSpec(tail, levels, MonthEnds(sessions, month)))
  {
    var dates := MonthEnds(sessions, month);
    MonthEndsAreSessions(sessions, month);
    StitchedSignalsAreChained(tail, levels, dates);
    forall i | 0 <= i < |dates|
      ensures cutoff < dates[i] && dates[i] in sessions
    {
      assert dates[i] in dates;
    }
  }

  /** Main result: over month-ends of any session list after the frozen decision, the transition-only
      schedule and the schedule of every runnable signal give one and the same portfolio result. */
  lemma EncodingsTradeAlike(
    m: Market, sessions: seq<int>, month: int -> int, cutoff: int, tail: seq<real>, levels: seq<real>, aum: real)
    requires m.slippage >= 0.0
    requires Increasing(sessions) && Monotone(month) && (sessions != [] ==> cutoff < sessions[0])
    requires |tail| == 9 && |levels| == |MonthEnds(sessions, month)|
    ensures var signals := StitchedSpec(tail, levels, MonthEnds(sessions, month));
      Portfolio(m, Compile(sessions, signals, Opening(sessions, cutoff), false).target, sessions, aum)
      == Portfolio(m, Compile(sessions, signals, Opening(sessions, cutoff), true).target, sessions, aum)
  {
    var signals := StitchedSpec(tail, levels, MonthEnds(sessions, month));
    MonthEndSignalsAreDated(sessions, month, cutoff, tail, levels);
    StitchedSignalsAreChained(tail, levels, MonthEnds(sessions, month));
    var sparse := Compile(sessions, signals, Opening(sessions, cutoff), false).target;
    var full := Compile(sessions, signals, Opening(sessions, cutoff), true).target;
    forall n | 0 <= n <= |sessions|
      ensures Held(sessions, sparse, n) == Held(sessions, full, n)
    {
      EncodingsDriveTheSamePositions(sessions, cutoff, signals, n);
    }
    OnlyPositionsMatter(m, sparse, full, sessions, aum);
  }

  lemma {:induction false} HeldFromEntries(sessions: seq<int>, a: map<int, State>, b: map<int, State>, n: nat)
    requires n <= |sessions|
    requires forall j :: 0 <= j < n ==> (sessions[j] in a <==> sessions[j] in b)
    requires forall j :: 0 <= j < n ==> sessions[j] in a ==> a[sessions[j]] == b[sessions[j]]
    ensures Held(sessions, a, n) == Held(sessions, b, n)
    decreases n
  {
    if n > 0 {
      HeldFromEntries(sessions, a, b, n - 1);
    }
  }

  /** Schedules of level series that agree through month i agree on every entry up to the execution of
      decision i. */
  lemma SchedulesAgreeThrough(sessions: seq<int>, cutoff: int, a: seq<Signal>, b: seq<Signal>, every: bool, i: nat, j: nat)
    requires Dated(sessions, cutoff, a) && Dated(sessions, cutoff, b)
    requires i < |a| && i < |b| && a[..i + 1] == b[..i + 1]
    requires j < |sessions| && j <= NextIndex(sessions, a[i].decision)
    ensures var opening := Opening(sessions, cutoff);
      SameEntry(Compile(sessions, a, opening, every), Compile(sessions, b, opening, every), sessions[j])
  {
    assert a[i] == a[..i + 1][i] == b[..i + 1][i] == b[i];
    ScheduleIsCausal(sessions, cutoff, a, every, i, j);
    ScheduleIsCausal(sessions, cutoff, b, every, i, j);
  }

  /** No look-ahead: levels after month i change nothing of the run up to and including the session that
      executes decision i. */
  lemma NoLookAhead(
    m: Market, sessions: seq<int>, month: int -> int, cutoff: int, tail: seq<real>, x: seq<real>, y: seq<real>,
    aum: real, i: nat, n: nat)
    requires m.slippage >= 0.0
    requires Increasing(sessions) && Monotone(month) && (sessions != [] ==> cutoff < sessions[0])
    requires |tail| == 9 && |x| == |y| == |MonthEnds(sessions, month)|
    requires i < |x| && x[..i + 1] == y[..i + 1]
    requires n <= |sessions| && n <= NextIndex(sessions, MonthEnds(sessions, month)[i]) + 1
    ensures var dates, opening := MonthEnds(sessions, month), Opening(sessions, cutoff);
      Simulate(m, Compile(sessions, StitchedSpec(tail, x, dates), opening, false).target, sessions[..n], aum)
      == Simulate(m, Compile(sessions, StitchedSpec(tail, y, dates), opening, false).target, sessions[..n], aum)
  {
    var dates, opening := MonthEnds(sessions, month), Opening(sessions, cutoff);
    var a, b := StitchedSpec(tail, x, dates), StitchedSpec(tail, y, dates);
    MonthEndSignalsAreDated(sessions, month, cutoff, tail, x);
    MonthEndSignalsAreDated(sessions, month, cutoff, tail, y);
    StitchedSignalsAreChained(tail, x, dates);
    SignalsAreCausal(tail, x, y, dates, i);
    var early := sessions[..n];
    var s, t := Compile(sessions, a, opening, false).target, Compile(sessions, b, opening, false).target;
    forall j | 0 <= j < n
      ensures early[j] in s <==> early[j] in t
      ensures early[j] in s ==> s[early[j]] == t[early[j]]
    {
      SchedulesAgreeThrough(sessions, cutoff, a, b, false, i, j);
    }
    forall k | 0 <= k <= n
      ensures Held(early, s, k) == Held(early, t, k)
    {
      HeldFromEntries(early, s, t, k);
    }
    OnlyPositionsMatter(m, s, t, early, aum);
  }

  // ----- Binding trades to decisions -----

  /** A trade as reported, with the decision it executes. */
  datatype Reported = Reported(trade: Trade, decision: Option<int>)

  /** Overwrite the trade list in place, each trade bound to the decision of its session. */
  method BindDecisions(trades: array<Reported>, decision: map<int, int>)
    modifies trades
    ensures forall k :: 0 <= k < trades.Length ==>
      && trades[k].trade == old(trades[k].trade)
      && (trades[k].decision.Some? <==> trades[k].trade.session in decision)
      && (trades[k].decision.Some? ==> trades[k].decision.value == decision[trades[k].trade.session])
  {
    for k := 0 to trades.Length
      invariant forall j :: 0 <= j < trades.Length ==> trades[j].trade == old(trades[j].trade)
      invariant forall j :: 0 <= j < k ==>
        && (trades[j].decision.Some? <==> trades[j].trade.session in decision)
        && (trades[j].decision.Some? ==> trades[j].decision.value == decision[trades[j].trade.session])
    {
      var t := trades[k].trade;
      trades[k] := Reported(t, if t.session in decision then Some(decision[t.session]) else None);
    }
  }

  lemma DayTradesWhenScheduled(m: Market, target: map<int, State>, session: int, b: Book)
    requires m.slippage >= 0.0 && Day(m, target, session, b).Ok?
    ensures var after := Day(m, target, session, b).value.trades;
      after == b.trades || (session in target && exists t: Trade :: t.session == session && after == b.trades + [t])
  {
    var after := Day(m, target, session, b).value.trades;
    if after != b.trades {
      assert after == b.trades + [after[|b.trades|]] && after[|b.trades|].session == session;
    }
  }

  lemma {:induction false} TradesAreScheduled(m: Market, target: map<int, State>, sessions: seq<int>, aum: real)
    requires m.slippage >= 0.0
    ensures var r := Simulate(m, target, sessions, aum);
      r.Ok? ==> forall i :: 0 <= i < |r.value.trades| ==> r.value.trades[i].session in target
  {
    if sessions != [] {
      TradesAreScheduled(m, target, sessions[..|sessions| - 1], aum);
      var before := Simulate(m, target, sessions[..|sessions| - 1], aum);
      if before.Ok? && Day(m, target, sessions[|sessions| - 1], before.value).Ok? {
        DayTradesWhenScheduled(m, target, sessions[|sessions| - 1], before.value);
      }
    }
  }

  /** Every trade of a compiled schedule is bound: its session is the first after the frozen decision or a
      kept signal's, and the trade takes that decision's state. */
  lemma EveryTradeIsBound(
    m: Market, sessions: seq<int>, cutoff: int, signals: seq<Signal>, every: bool, aum: real, i: nat)
    requires m.slippage >= 0.0 && Increasing(sessions)
    requires var c := Compile(sessions, signals, Opening(sessions, cutoff), every);
      Simulate(m, c.target, sessions, aum).Ok? && i < |Simulate(m, c.target, sessions, aum).value.trades|
    ensures var c := Compile(sessions, signals, Opening(sessions, cutoff), every);
      var t := Simulate(m, c.target, sessions, aum).value.trades[i];
      && t.session in c.target && t.session in c.decision
      && FirstAfter(sessions, c.decision[t.session], t.session)
      && Decided(cutoff, signals, every, c.decision[t.session], c.target[t.session])
  {
    var c := Compile(sessions, signals, Opening(sessions, cutoff), every);
    TradesAreScheduled(m, c.target, sessions, aum);
    EveryEntryIsBound(sessions, cutoff, signals, every, Simulate(m, c.target, sessions, aum).value.trades[i].session);
  }
}
