/**
 The backtest endpoint of backend/main.py: request validation, the checks
 made before any computation, and the assembly of the response from the
 core pieces (spread, z-score, signals, spread backtest, equity on the
 average capital), with NaN and infinities cleaned to 0 for JSON.

 The Engle-Granger fit and the sample standard deviation are parameters.
 */
module Api {
  import opened Base
  import opened Tables
  import opened Loader
  import opened Metrics
  import opened Signal
  import opened SpreadBacktester
  import opened Pipeline

  const MinWindow: int := 20
  const MaxWindow: int := 252
  const DefaultWindow: int := 60
  const DefaultEntryZ: real := 2.0
  const DefaultExitZ: real := 0.5
  const DefaultNotional: real := 1000.0

  /** The request body as sent: `None` is a field left out of the JSON. */
  datatype Request = Request(tickers: seq<string>, window: Option<int>, entryZ: Option<real>,
                             exitZ: Option<real>, notional: Option<real>)

  /** `BacktestRequest` once pydantic has put the defaults in for the fields left out. */
  datatype Params = Params(tickers: seq<string>, window: int, entryZ: real, exitZ: real, notional: real)

  /** The defaults of backend/main.py (lines 29-31, and 1000.0 for the notional) stand in for the omitted fields. */
  function Resolve(r: Request): (p: Params)
    ensures p.tickers == r.tickers
    ensures p.window == r.window.GetOr(DefaultWindow) && p.entryZ == r.entryZ.GetOr(DefaultEntryZ)
    ensures p.exitZ == r.exitZ.GetOr(DefaultExitZ) && p.notional == r.notional.GetOr(DefaultNotional)
  {
    Params(r.tickers, r.window.GetOr(DefaultWindow), r.entryZ.GetOr(DefaultEntryZ),
           r.exitZ.GetOr(DefaultExitZ), r.notional.GetOr(DefaultNotional))
  }

  // ---------------------------------------------------------------------------
  // Validation

  /** The validators' error messages. */
  datatype Message =
    | TickerCount | SameTickers
    | WindowTooSmall | WindowTooLarge
    | EntryNotPositive | EntryTooHigh
    | ExitNegative | ExitNotBelowEntry
  {
    /** The text pydantic reports. */
    function Text(): string {
      match this
      case TickerCount => "Exactly 2 tickers required"
      case SameTickers => "Tickers must be different"
      case WindowTooSmall => "Window must be >= 20"
      case WindowTooLarge => "Window must be <= 252"
      case EntryNotPositive => "Entry Z-score must be positive"
      case EntryTooHigh => "Entry Z-score seems unreasonably high (>5)"
      case ExitNegative => "Exit Z-score must be non-negative"
      case ExitNotBelowEntry => "Exit Z-score must be < Entry Z-score"
    }
  }

  function TickersError(v: seq<string>): Option<Message> {
    if |v| != 2 then Some(TickerCount)
    else if v[0] == v[1] then Some(SameTickers)
    else None
  }

  function WindowError(v: int): Option<Message> {
    if v < MinWindow then Some(WindowTooSmall)
    else if v > MaxWindow then Some(WindowTooLarge)
    else None
  }

  function EntryError(v: real): Option<Message> {
    if v <= 0.0 then Some(EntryNotPositive)
    else if v > 5.0 then Some(EntryTooHigh)
    else None
  }

  /**
   `'entry_z' in values` when exit_z is validated: an omitted entry_z is
   there with its default, a supplied one only when its validator passed.
   */
  predicate EntryInValues(entryZ: Option<real>) {
    entryZ.None? || EntryError(entryZ.value).None?
  }

  /** The exit check compares with entry_z (its default when omitted) only when that is in `values`. */
  function ExitError(v: real, entryZ: Option<real>): Option<Message> {
    if v < 0.0 then Some(ExitNegative)
    else if EntryInValues(entryZ) && v >= entryZ.GetOr(DefaultEntryZ) then Some(ExitNotBelowEntry)
    else None
  }

  /** The window validator, which runs only when a window was sent (none is declared `always=True`). */
  function WindowCheck(window: Option<int>): (e: Option<Message>)
    ensures e.None? <==> (window.Some? ==> MinWindow <= window.value <= MaxWindow)
  {
    if window.Some? then WindowError(window.value) else None
  }

  /** The entry_z validator, which runs only when entry_z was sent. */
  function EntryCheck(entryZ: Option<real>): (e: Option<Message>)
    ensures e.None? <==> (entryZ.Some? ==> 0.0 < entryZ.value <= 5.0)
  {
    if entryZ.Some? then EntryError(entryZ.value) else None
  }

  /** The exit_z validator, which runs only when exit_z was sent; once entry_z passed, it is the range check against it. */
  function ExitCheck(exitZ: Option<real>, entryZ: Option<real>): (e: Option<Message>)
    ensures exitZ.None? ==> e.None?
    ensures EntryCheck(entryZ).None? ==>
      (e.None? <==> (exitZ.Some? ==> 0.0 <= exitZ.value < entryZ.GetOr(DefaultEntryZ)))
    ensures EntryCheck(entryZ).Some? ==> (e.None? <==> (exitZ.Some? ==> 0.0 <= exitZ.value))
  {
    if exitZ.Some? then ExitError(exitZ.value, entryZ) else None
  }

  /** The messages of the present entries, in order. */
  function Messages<T>(checks: seq<Option<T>>): (m: seq<T>)
    ensures |m| <= |checks|
    ensures |m| == 0 <==> forall k :: 0 <= k < |checks| ==> checks[k].None?
  {
    if |checks| == 0 then [] else Present(checks[0]) + Messages(checks[1..])
  }

  /** The messages are exactly those of the failed checks. */
  lemma {:induction false} MessagesMembers<T>(checks: seq<Option<T>>)
    ensures forall k :: 0 <= k < |checks| && checks[k].Some? ==> checks[k].value in Messages(checks)
    ensures forall e :: e in Messages(checks) ==> Some(e) in checks
  {
    if |checks| > 0 {
      MessagesMembers(checks[1..]);
      assert forall k :: 1 <= k < |checks| ==> checks[k] == checks[1..][k - 1];
    }
  }

  /** The message of one check, if it failed. */
  function Present<T>(check: Option<T>): (m: seq<T>)
    ensures check.None? ==> m == []
    ensures check.Some? ==> m == [check.value]
  {
    if check.Some? then [check.value] else []
  }

  /** The messages of the four field checks, spelled out. */
  lemma {:induction false} MessagesOfFour<T>(checks: seq<Option<T>>)
    requires |checks| == 4
    ensures Messages(checks) == Present(checks[0]) + Present(checks[1]) + Present(checks[2]) + Present(checks[3])
  {
    var t1 := checks[1..];
    var t2 := t1[1..];
    var t3 := t2[1..];
    assert t3[1..] == [];
    assert t3[0] == checks[3] && t2[0] == checks[2] && t1[0] == checks[1];
    var p0, p1, p2, p3 := Present(checks[0]), Present(checks[1]), Present(checks[2]), Present(checks[3]);
    assert Messages(t3[1..]) == [];
    assert Messages(t3) == p3 + Messages(t3[1..]);
    assert Messages(t3) == p3;
    assert Messages(t2) == p2 + p3;
    assert Messages(t1) == p1 + (p2 + p3);
    assert Messages(checks) == p0 + (p1 + (p2 + p3));
    assert p0 + (p1 + (p2 + p3)) == p0 + p1 + p2 + p3;
  }

  /**
   What the validators accept: two different tickers, and each field that
   was sent in range, exit_z below the (possibly default) entry_z. An
   omitted field is not checked.
   */
  predicate Accepted(r: Request) {
    && |r.tickers| == 2 && r.tickers[0] != r.tickers[1]
    && (r.window.Some? ==> MinWindow <= r.window.value <= MaxWindow)
    && (r.entryZ.Some? ==> 0.0 < r.entryZ.value <= 5.0)
    && (r.exitZ.Some? ==> 0.0 <= r.exitZ.value < r.entryZ.GetOr(DefaultEntryZ))
  }

  /** The field validators, in field order, each on its field only when it was sent. */
  function Checks(r: Request): (checks: seq<Option<Message>>)
    ensures |checks| == 4
    ensures (forall k :: 0 <= k < 4 ==> checks[k].None?) <==> Accepted(r)
  {
    var checks := [TickersError(r.tickers), WindowCheck(r.window), EntryCheck(r.entryZ), ExitCheck(r.exitZ, r.entryZ)];
    assert (forall k :: 0 <= k < 4 ==> checks[k].None?) <==>
      checks[0].None? && checks[1].None? && checks[2].None? && checks[3].None?;
    checks
  }

  /**
   The pydantic model: the validators of the fields that were sent run, and
   the request is rejected (422) with the messages of those that failed, in
   field order (`Message.Text` is the reported text); otherwise the defaults fill the omitted fields. The
   thresholds are reals here, so the NaN that pydantic would let through
   (every comparison with it is false) cannot occur.
   */
  function Validate(r: Request): (v: Result<Params, seq<Message>>)
    ensures v.Ok? <==> Accepted(r)
    ensures v.Ok? ==> v.value == Resolve(r)
    ensures v.Err? ==> 1 <= |v.error| <= 4
  {
    var m := Messages(Checks(r));
    if |m| == 0 then Ok(Resolve(r)) else Err(m)
  }

  /**
   The parameters an accepted request can reach the endpoint with: two
   different tickers, 20 <= window <= 252, 0 < entry_z <= 5, 0 <= exit_z,
   and exit_z below entry_z unless it is the unchecked default 0.5.
   */
  predicate Resolved(p: Params) {
    && |p.tickers| == 2 && p.tickers[0] != p.tickers[1]
    && MinWindow <= p.window <= MaxWindow
    && 0.0 < p.entryZ <= 5.0
    && 0.0 <= p.exitZ
    && (p.exitZ < p.entryZ || p.exitZ == DefaultExitZ)
  }

  /** Every accepted request resolves to parameters of that shape. */
  lemma AcceptedIsResolved(r: Request)
    requires Accepted(r)
    ensures Resolved(Resolve(r))
  {
  }

  /** A request sending every field except exit_z when that is not below entry_z. */
  function RequestFor(p: Params): (r: Request)
    requires p.exitZ < p.entryZ || p.exitZ == DefaultExitZ
    ensures Resolve(r) == p
  {
    Request(p.tickers, Some(p.window), Some(p.entryZ),
            if p.exitZ < p.entryZ then Some(p.exitZ) else None, Some(p.notional))
  }

  /** Conversely, every such parameter set comes from some accepted request: `Resolved` is exact. */
  lemma ResolvedIsAccepted(p: Params)
    requires Resolved(p)
    ensures Accepted(RequestFor(p)) && Validate(RequestFor(p)) == Ok(p)
  {
  }

  /**
   The boundaries the API tests rely on, for any two different tickers a
   and b and any notional: window 20 and exit_z 0 are accepted; window 19,
   exit_z == entry_z, a ticker given twice and a single ticker are each
   rejected with exactly the matching message.
   */
  lemma ValidationBoundaries(a: string, b: string, notional: Option<real>)
    requires a != b
    ensures Validate(Request([a, b], Some(20), Some(2.0), Some(0.0), notional)).Ok?
    ensures Validate(Request([a, b], Some(19), Some(2.0), Some(0.5), notional)) == Err([WindowTooSmall])
    ensures Validate(Request([a, b], Some(60), Some(2.0), Some(2.0), notional)) == Err([ExitNotBelowEntry])
    ensures Validate(Request([a, a], Some(60), Some(2.0), Some(0.5), notional)) == Err([SameTickers])
    ensures Validate(Request([a], Some(60), Some(2.0), Some(0.5), notional)) == Err([TickerCount])
  {
    RejectedFor(Request([a, b], Some(19), Some(2.0), Some(0.5), notional), 1);
    RejectedFor(Request([a, b], Some(60), Some(2.0), Some(2.0), notional), 3);
    RejectedFor(Request([a, a], Some(60), Some(2.0), Some(0.5), notional), 0);
    RejectedFor(Request([a], Some(60), Some(2.0), Some(0.5), notional), 0);
  }

  /** A request failing exactly one check is rejected with that check's message alone. */
  lemma RejectedFor(r: Request, k: nat)
    requires k < 4 && Checks(r)[k].Some?
    requires forall j :: 0 <= j < 4 && j != k ==> Checks(r)[j].None?
    ensures Validate(r) == Err([Checks(r)[k].value])
  {
    var c := Checks(r);
    MessagesOfFour(c);
    var e: seq<Message> := [];
    var one := [c[k].value];
    if k == 0 {
      assert Present(c[0]) == one && Present(c[1]) == e && Present(c[2]) == e && Present(c[3]) == e;
      assert one + e + e + e == one;
    } else if k == 1 {
      assert Present(c[0]) == e && Present(c[1]) == one && Present(c[2]) == e && Present(c[3]) == e;
      assert e + one + e + e == one;
    } else if k == 2 {
      assert Present(c[0]) == e && Present(c[1]) == e && Present(c[2]) == one && Present(c[3]) == e;
      assert e + e + one + e == one;
    } else {
      assert Present(c[0]) == e && Present(c[1]) == e && Present(c[2]) == e && Present(c[3]) == one;
      assert e + e + e + one == one;
    }
    assert Messages(c) == one;
  }

  /**
   An omitted exit_z is never compared: entry_z 0.4 with the default exit_z
   0.5 is accepted, so the endpoint runs with exit_z above entry_z. An
   omitted entry_z is compared at its default: exit_z 3.0 alone is rejected.
   */
  lemma OmittedFieldsUnchecked()
    ensures Validate(Request(["AAA", "BBB"], None, Some(0.4), None, None)) ==
      Ok(Params(["AAA", "BBB"], 60, 0.4, 0.5, 1000.0))
    ensures Validate(Request(["AAA", "BBB"], None, None, Some(3.0), None)) ==
      Err([ExitNotBelowEntry])
    ensures Validate(Request(["AAA", "BBB"], Some(5), None, None, None)) == Err([WindowTooSmall])
  {
    RejectedFor(Request(["AAA", "BBB"], None, None, Some(3.0), None), 3);
    RejectedFor(Request(["AAA", "BBB"], Some(5), None, None, None), 1);
  }

  /**
   With an invalid entry_z the exit check against it is skipped: a
   non-negative exit_z draws no exit message at all, whatever its value,
   and the entry message is reported.
   */
  lemma InvalidEntrySkipsExitComparison(r: Request)
    requires r.entryZ.Some? && EntryError(r.entryZ.value).Some?
    requires r.exitZ.Some? ==> r.exitZ.value >= 0.0
    ensures Validate(r).Err? && EntryError(r.entryZ.value).value in Validate(r).error
    ensures ExitNotBelowEntry !in Validate(r).error && ExitNegative !in Validate(r).error
  {
    var checks := Checks(r);
    assert checks[2].Some?;
    assert checks[3].None?;
    MessagesMembers(checks);
  }

  // ---------------------------------------------------------------------------
  // Cleaning and equity

  /** `replace([inf, -inf], nan).fillna(0)`: finite values unchanged, NaN and infinities 0. */
  function CleanSeries(s: seq<Float>): (r: seq<real>)
    ensures |r| == |s|
    ensures forall t :: 0 <= t < |s| ==> r[t] == if s[t].Num? then s[t].v else 0.0
  {
    seq(|s|, t requires 0 <= t < |s| => if s[t].Num? then s[t].v else 0.0)
  }

  /** A series of finite values is left as it is. */
  lemma CleanFinite(v: seq<real>)
    ensures CleanSeries(Nums(v)) == v
  {
  }

  /** The product of the factors in doubles, multiplied in from the left. */
  function FloatProduct(g: seq<Float>): Float {
    if |g| == 0 then Num(1.0) else Mul(FloatProduct(g[..|g| - 1]), g[|g| - 1])
  }

  /** `cumprod` in doubles: entry t is the product of g[0..t]. */
  function FloatCumProd(g: seq<Float>): (r: seq<Float>)
    ensures |r| == |g|
    ensures forall t :: 0 <= t < |g| ==> r[t] == FloatProduct(g[..t + 1])
  {
    if |g| == 0 then []
    else
      var n := |g|;
      var init := FloatCumProd(g[..n - 1]);
      var last := if |init| == 0 then g[0] else Mul(init[|init| - 1], g[n - 1]);
      assert last == FloatProduct(g[..n]) by {
        assert g[..n][..n - 1] == g[..n - 1];
        if n == 1 {
          assert g[..n][..0] == [];
          MulOne(g[0]);
        } else {
          assert g[..n - 1][..n - 1] == g[..n - 1];
        }
      }
      forall t | 0 <= t < n - 1
        ensures init[t] == FloatProduct(g[..t + 1])
      {
        assert g[..n - 1][..t + 1] == g[..t + 1];
      }
      assert g[..n] == g;
      init + [last]
  }

  /** 1.0 is the identity of double multiplication, infinities and NaN included. */
  lemma MulOne(f: Float)
    ensures Mul(Num(1.0), f) == f
  {
  }

  /** On finite factors the double running product is the exact one. */
  lemma FloatCumProdFinite(v: seq<real>)
    ensures FloatCumProd(Nums(v)) == Nums(CumProd(v))
  {
    forall t | 0 <= t < |v|
      ensures FloatCumProd(Nums(v))[t] == Num(CumProd(v)[t])
    {
      assert Nums(v)[..t + 1] == Nums(v[..t + 1]);
      FloatProductFinite(v[..t + 1]);
    }
  }

  /** The double product of finite factors is the exact product. */
  lemma {:induction false} FloatProductFinite(v: seq<real>)
    ensures FloatProduct(Nums(v)) == Num(Product(v))
  {
    if |v| > 0 {
      assert Nums(v)[..|v| - 1] == Nums(v[..|v| - 1]);
      FloatProductFinite(v[..|v| - 1]);
    }
  }

  /** Real values as doubles. */
  function Nums(v: seq<real>): (f: seq<Float>)
    ensures |f| == |v| && forall t :: 0 <= t < |v| ==> f[t] == Num(v[t])
  {
    seq(|v|, t requires 0 <= t < |v| => Num(v[t]))
  }

  /**
   `(1 + (pnl / avg_capital).fillna(0)).cumprod()` in doubles. With a
   non-zero capital base every entry is finite and equals the exact equity
   of the returns pnl / capital, a missing P&L counting as 0.
   */
  function EquityCurve(pnl: seq<Option<real>>, capital: real): (e: seq<Float>)
    ensures |e| == |pnl|
    ensures capital != 0.0 ==> e == Nums(Equity(CapitalReturns(pnl, capital)))
  {
    var rets := seq(|pnl|, t requires 0 <= t < |pnl| => Div(OfOption(pnl[t]), Num(capital)));
    var filled := seq(|pnl|, t requires 0 <= t < |pnl| => if rets[t].NaN? then Num(0.0) else rets[t]);
    var growth := seq(|pnl|, t requires 0 <= t < |pnl| => Add(Num(1.0), filled[t]));
    if capital != 0.0 then
      var r := CapitalReturns(pnl, capital);
      var g := seq(|r|, t requires 0 <= t < |r| => 1.0 + r[t]);
      assert growth == Nums(g);
      FloatCumProdFinite(g);
      FloatCumProd(growth)
    else FloatCumProd(growth)
  }

  /** P&L over the capital base, a missing P&L counting as 0. */
  function CapitalReturns(pnl: seq<Option<real>>, capital: real): (r: seq<real>)
    requires capital != 0.0
    ensures |r| == |pnl|
    ensures forall t :: 0 <= t < |pnl| ==> r[t] * capital == pnl[t].GetOr(0.0)
  {
    seq(|pnl|, t requires 0 <= t < |pnl| => pnl[t].GetOr(0.0) / capital)
  }

  // ---------------------------------------------------------------------------
  // The endpoint

  datatype HttpError = HttpError(status: int, detail: string)

  datatype Response = Response(
    dates: seq<int>, priceY: seq<real>, priceX: seq<real>, spread: seq<real>, zscore: seq<real>,
    position: seq<real>, pnl: seq<real>, equity: seq<real>, estimatedCapital: real,
    hedgeRatio: real, intercept: real)

  /** Python's `str(list)` of column names. */
  function PyList(names: seq<string>): string {
    "[" + PyItems(names) + "]"
  }

  function PyItems(names: seq<string>): string {
    if |names| == 0 then ""
    else if |names| == 1 then "'" + names[0] + "'"
    else "'" + names[0] + "', " + PyItems(names[1..])
  }

  /** The column of an aligned pair table, as values. */
  function PairColumn(a: Table, c: nat): (v: seq<real>)
    requires Rectangular(a) && c < |a.names|
    requires forall i :: 0 <= i < |a.rows| ==> Complete(a.rows[i])
    ensures |v| == |a.rows|
    ensures forall i :: 0 <= i < |a.rows| ==> a.rows[i].cells[c] == Some(v[i])
  {
    assert HasColumn(a.rows, c) by {
      forall i | 0 <= i < |a.rows|
        ensures c < |a.rows[i].cells| && a.rows[i].cells[c].Some?
      {
        assert Complete(a.rows[i]);
      }
    }
    Column(a.rows, c)
  }

  /** The rows handed to the spread backtester: spread in cell 0, signal in cell 1. */
  function SignalRows(times: seq<int>, spread: seq<real>, signals: seq<int>): (rows: seq<Row>)
    requires |spread| == |times| && |signals| == |times|
    ensures |rows| == |times| && TwoColumns(rows)
    ensures forall i :: 0 <= i < |rows| ==> rows[i].time == times[i] && Complete(rows[i])
    ensures HasColumn(rows, 0) && HasColumn(rows, 1)
  {
    seq(|times|, i requires 0 <= i < |times| => Row(times[i], [Some(spread[i]), Some(signals[i] as real)]))
  }

  /** Rows that are complete and in time order come out of the alignment unchanged. */
  lemma AlignedRowsKept(rows: seq<Row>)
    requires TwoColumns(rows) && SortedByTime(rows)
    requires forall i :: 0 <= i < |rows| ==> Complete(rows[i])
    ensures Align(rows) == rows
  {
    DropCompleteIsIdentity(rows);
    SortSortedIsIdentity(rows);
  }

  /** The times of a table's rows. */
  function Times(rows: seq<Row>): (ts: seq<int>)
    ensures |ts| == |rows| && forall i :: 0 <= i < |rows| ==> ts[i] == rows[i].time
  {
    seq(|rows|, i requires 0 <= i < |rows| => rows[i].time)
  }

  /** The 400 raised for a requested ticker absent from the table. */
  function MissingTickerError(t: string, names: seq<string>): (e: HttpError)
    ensures e.status == 400
    ensures ("Ticker '" + t + "' not found in data") <= e.detail
  {
    var head := "Ticker '" + t + "' not found in data";
    var e := HttpError(400, head + ". Available: " + PyList(names));
    assert e.detail[..|head|] == head;
    e
  }

  /**
   The checks `run_backtest` makes before computing anything, in order: a
   requested ticker missing from the table, no common rows, fewer common
   rows than the window.
   */
  function Precheck(req: Params, df: Table): (e: Option<HttpError>)
    requires Resolved(req) && Rectangular(df)
    ensures e.Some? ==> e.value.status == 400
    ensures FirstMissing(df.names, req.tickers).Some? ==>
      e.Some? && ("Ticker '" + FirstMissing(df.names, req.tickers).value + "' not found in data") <= e.value.detail
    ensures FirstMissing(df.names, req.tickers).None? ==>
      (e.Some? <==> |AlignPairs(df, req.tickers).value.rows| < req.window)
  {
    match FirstMissing(df.names, req.tickers)
    case Some(t) => Some(MissingTickerError(t, df.names))
    case None =>
      var n := |AlignPairs(df, req.tickers).value.rows|;
      if n == 0 then Some(HttpError(400, "No overlapping data for pairs"))
      else if n < req.window then
        Some(HttpError(400, "Insufficient data (" + Decimal(n) + " rows) for window size (" + Decimal(req.window) + ")"))
      else None
  }

  /**
   `run_backtest` on the parameters of an accepted request (defaults in
   place) and the loaded price table. A
   requested ticker missing from the table, no common rows, or fewer common
   rows than the window are 400 errors raised before anything is computed.
   Otherwise the dependent leg y is the second ticker and x the first; every
   series of the response has one entry per date; positions are in
   {-1, 0, +1}; and with a non-zero capital base the equity is the running
   product of 1 + pnl / capital.
   */
  function RunBacktest(req: Params, df: Table, engleGranger: (seq<real>, seq<real>) -> (real, real),
                       sampleSd: seq<real> -> Option<real>): (r: Result<Response, HttpError>)
    requires Resolved(req) && Rectangular(df)
    ensures r.Err? <==> Precheck(req, df).Some?
    ensures r.Err? ==> r.error.status == 400
    ensures r.Ok? ==> var a := AlignPairs(df, req.tickers).value;
      && |a.rows| >= req.window
      && r.value.dates == Times(a.rows)
      && r.value.priceY == PairColumn(a, 1) && r.value.priceX == PairColumn(a, 0)
    ensures r.Ok? ==> Consistent(r.value)
    ensures r.Ok? ==> Fitted(r.value, AlignPairs(df, req.tickers).value, req, engleGranger, sampleSd)
  {
    match Precheck(req, df)
    case Some(e) => Err(e)
    case None =>
      assert FirstMissing(df.names, req.tickers).None?;
      var a := AlignPairs(df, req.tickers).value;
      assert |a.names| == 2 && |a.rows| >= req.window;
      var resp := Compute(a, req, engleGranger, sampleSd);
      Ok(resp)
  }

  /** The response's positions: flat on the first date, then the previous date's signal. */
  function HeldPositions(v: seq<real>): (p: seq<real>)
    ensures |p| == |v|
    ensures |p| > 0 ==> p[0] == 0.0
    ensures forall t :: 1 <= t < |p| ==> p[t] == v[t - 1]
    ensures Unit(v) ==> Unit(p)
  {
    var held := Positions(v);
    CleanSeries(seq(|v|, t requires 0 <= t < |v| => OfOption(held[t])))
  }

  /** The signals as numbers, each -1, 0 or +1. */
  function SignalValues(signals: seq<int>): (v: seq<real>)
    requires forall t :: 0 <= t < |signals| ==> -1 <= signals[t] <= 1
    ensures |v| == |signals| && Unit(v)
    ensures forall t :: 0 <= t < |signals| ==> v[t] == signals[t] as real
  {
    seq(|signals|, t requires 0 <= t < |signals| => signals[t] as real)
  }

  /** The response's P&L: a missing value (the first date) reads 0. */
  function PnlSeries(pnl: seq<Option<real>>): (p: seq<real>)
    ensures |p| == |pnl|
    ensures forall t :: 0 <= t < |pnl| ==> p[t] == pnl[t].GetOr(0.0)
  {
    CleanSeries(seq(|pnl|, t requires 0 <= t < |pnl| => OfOption(pnl[t])))
  }

  /** The response's equity: with a non-zero capital base, the running product of 1 + P&L / capital. */
  function EquitySeries(pnl: seq<Option<real>>, capital: real): (e: seq<real>)
    ensures CompoundsOn(e, PnlSeries(pnl), capital)
  {
    var curve := EquityCurve(pnl, capital);
    if capital != 0.0 then
      var p := PnlSeries(pnl);
      var exact := Equity(CapitalReturns(pnl, capital));
      assert seq(|p|, t requires 0 <= t < |p| => p[t] / capital) == CapitalReturns(pnl, capital);
      CleanFinite(exact);
      CleanSeries(curve)
    else CleanSeries(curve)
  }

  /** The spread and the signal as the two cells of the backtester's rows. */
  lemma SignalRowsColumns(times: seq<int>, spread: seq<real>, signals: seq<int>)
    requires |spread| == |times| && |signals| == |times|
    ensures Column(SignalRows(times, spread, signals), 0) == spread
    requires forall t :: 0 <= t < |signals| ==> -1 <= signals[t] <= 1
    ensures Column(SignalRows(times, spread, signals), 1) == SignalValues(signals)
  {
  }

  /** A series with every value present. */
  function Lift(v: seq<real>): (s: seq<Option<real>>)
    ensures |s| == |v| && forall t :: 0 <= t < |v| ==> s[t] == Some(v[t])
  {
    seq(|v|, t requires 0 <= t < |v| => Some(v[t]))
  }

  /**
   `zscore(spread, window).fillna(0)` and the signals generated from it: the
   z-score is `Signal.ZScore`'s where that has a value and 0 elsewhere (the
   warm-up), and the signals are those of that filled z-score.
   */
  function ZAndSignals(spread: seq<real>, req: Params, sampleSd: seq<real> -> Option<real>): (zs: (seq<real>, seq<int>))
    requires Resolved(req)
    ensures |zs.0| == |spread| && |zs.1| == |spread|
    ensures forall t :: 0 <= t < |spread| ==> -1 <= zs.1[t] <= 1
    ensures forall t :: 0 <= t < |spread| ==>
      zs.0[t] == ZScore(Lift(spread), req.window, sampleSd)[t].GetOr(0.0)
    ensures zs.1 == MeanReversionSignals(Lift(zs.0), req.entryZ, req.exitZ)
  {
    var n := |spread|;
    var z := ZScore(Lift(spread), req.window, sampleSd);
    var zFilled := seq(n, t requires 0 <= t < n => z[t].GetOr(0.0));
    (zFilled, MeanReversionSignals(Lift(zFilled), req.entryZ, req.exitZ))
  }

  /**
   The backtester's P&L with a notional of 1: missing on the first date, then
   the previous date's signal times the spread change. `SignalRowsPnl` shows
   it is what `backtest_spread_strategy` returns on time-ordered dates.
   */
  function UnitPnl(spread: seq<real>, v: seq<real>): (pnl: seq<Option<real>>)
    requires |v| == |spread|
    ensures |pnl| == |spread|
    ensures |pnl| > 0 ==> pnl[0].None?
    ensures forall t :: 1 <= t < |pnl| ==> pnl[t] == Some(Earned(v[t - 1], spread[t - 1], spread[t]))
  {
    var pnl := SpreadPnl(spread, v, 1.0);
    forall t | 1 <= t < |pnl|
      ensures pnl[t] == Some(Earned(v[t - 1], spread[t - 1], spread[t]))
    {
      assert pnl[t].Some?;
      assert pnl[t].value == v[t - 1] * (spread[t] - spread[t - 1]) * 1.0;
    }
    pnl
  }

  /** One unit of position held while the spread moves from `before` to `after`. */
  function Earned(position: real, before: real, after: real): real {
    position * (after - before)
  }

  /** Rows built from time-ordered dates pass through the backtester's alignment as they are. */
  lemma SignalRowsPnl(times: seq<int>, spread: seq<real>, signals: seq<int>)
    requires |spread| == |times| && |signals| == |times|
    requires forall i, j :: 0 <= i < j < |times| ==> times[i] <= times[j]
    requires forall t :: 0 <= t < |signals| ==> -1 <= signals[t] <= 1
    ensures BacktestSpreadStrategy(SignalRows(times, spread, signals), 1.0).pnl == UnitPnl(spread, SignalValues(signals))
  {
    var rows := SignalRows(times, spread, signals);
    assert SortedByTime(rows);
    AlignedRowsKept(rows);
    SignalRowsColumns(times, spread, signals);
  }

  /** The computation once the aligned pair is known to be long enough. */
  function Compute(a: Table, req: Params, engleGranger: (seq<real>, seq<real>) -> (real, real),
                   sampleSd: seq<real> -> Option<real>): (resp: Response)
    requires Resolved(req) && Rectangular(a) && |a.names| == 2 && SortedByTime(a.rows) && |a.rows| >= req.window
    requires forall i :: 0 <= i < |a.rows| ==> Complete(a.rows[i])
    ensures resp.dates == Times(a.rows) && resp.priceY == PairColumn(a, 1) && resp.priceX == PairColumn(a, 0)
    ensures Consistent(resp)
    ensures Fitted(resp, a, req, engleGranger, sampleSd)
  {
    var y := PairColumn(a, 1);
    var x := PairColumn(a, 0);
    var (hedge, intercept) := engleGranger(y, x);
    var zs := ZAndSignals(ComputeSpread(y, x, hedge, intercept), req, sampleSd);
    Assemble(Times(a.rows), y, x, hedge, intercept, zs.0, zs.1)
  }

  /** `avg_capital`: the average price of the dependent leg plus the hedge ratio times that of the other leg. */
  function CapitalBase(y: seq<real>, x: seq<real>, hedge: real): (c: real)
    requires |y| > 0 && |x| > 0
    ensures c * ((|y| * |x|) as real) == Sum(y) * (|x| as real) + hedge * Sum(x) * (|y| as real)
  {
    Mean(y) + hedge * Mean(x)
  }

  /** The spread of the response: y less the fitted line on x. */
  function ResponseSpread(y: seq<real>, x: seq<real>, hedge: real, intercept: real): (s: seq<real>)
    requires |x| == |y|
    ensures FitsSpread(s, y, x, hedge, intercept)
  {
    ComputeSpread(y, x, hedge, intercept)
  }

  /** The positions of the response and the backtester's P&L behind its `pnl` series. */
  function Trades(spread: seq<real>, signals: seq<int>): (tr: (seq<real>, seq<Option<real>>))
    requires |signals| == |spread|
    requires forall t :: 0 <= t < |signals| ==> -1 <= signals[t] <= 1
    ensures |tr.1| == |spread|
    ensures EarnsSpreadChange(PnlSeries(tr.1), tr.0, spread)
  {
    var v := SignalValues(signals);
    var pnl := UnitPnl(spread, v);
    var position := HeldPositions(v);
    var p := PnlSeries(pnl);
    PnlIsPositionTimesChange(spread, v);
    (position, pnl)
  }

  /** After the first date, the cleaned P&L is the position held times the spread change. */
  lemma PnlIsPositionTimesChange(spread: seq<real>, v: seq<real>)
    requires |v| == |spread|
    ensures var p := PnlSeries(UnitPnl(spread, v));
      var position := HeldPositions(v);
      && (|spread| > 0 ==> position[0] == 0.0 && p[0] == 0.0)
      && forall t :: 1 <= t < |spread| ==> p[t] == Earned(position[t], spread[t - 1], spread[t])
  {
    var pnl := UnitPnl(spread, v);
    var p := PnlSeries(pnl);
    var position := HeldPositions(v);
    forall t | 1 <= t < |spread|
      ensures p[t] == Earned(position[t], spread[t - 1], spread[t])
    {
      assert p[t] == pnl[t].GetOr(0.0);
      assert position[t] == v[t - 1];
    }
  }

  /** The response built from the two legs, the fitted coefficients, the z-score and the signals. */
  function Assemble(times: seq<int>, y: seq<real>, x: seq<real>, hedge: real, intercept: real,
                    z: seq<real>, signals: seq<int>): (r: Response)
    requires |times| > 0 && |y| == |times| && |x| == |times| && |z| == |times| && |signals| == |times|
    requires forall t :: 0 <= t < |signals| ==> -1 <= signals[t] <= 1
    ensures r.dates == times && r.priceY == y && r.priceX == x && r.hedgeRatio == hedge && r.intercept == intercept
    ensures r.zscore == z && r.position == HeldPositions(SignalValues(signals))
    ensures r.estimatedCapital == CapitalBase(y, x, hedge)
    ensures Consistent(r)
  {
    var spread := ResponseSpread(y, x, hedge, intercept);
    var tr := Trades(spread, signals);
    var capital := CapitalBase(y, x, hedge);
    Response(times, y, x, spread, z, tr.0, PnlSeries(tr.1), EquitySeries(tr.1, capital), capital, hedge, intercept)
  }

  /** spread = y - (intercept + hedge x), bar by bar. */
  predicate FitsSpread(spread: seq<real>, y: seq<real>, x: seq<real>, hedge: real, intercept: real) {
    |spread| == |y| && |x| == |y|
    && forall t :: 0 <= t < |y| ==> spread[t] + (intercept + hedge * x[t]) == y[t]
  }

  /**
   Positions in {-1, 0, +1}, flat on the first date; P&L 0 on the first date
   and then the position times the spread change.
   */
  predicate EarnsSpreadChange(pnl: seq<real>, position: seq<real>, spread: seq<real>) {
    |pnl| == |spread| && |position| == |spread|
    && Unit(position)
    && (|spread| > 0 ==> position[0] == 0.0 && pnl[0] == 0.0)
    && (forall t :: 1 <= t < |spread| ==> pnl[t] == Earned(position[t], spread[t - 1], spread[t]))
  }

  /** With a non-zero capital base, equity is the running product of 1 + P&L / capital. */
  predicate CompoundsOn(equity: seq<real>, pnl: seq<real>, capital: real) {
    |equity| == |pnl|
    && (capital != 0.0 ==> equity == Equity(seq(|pnl|, t requires 0 <= t < |pnl| => pnl[t] / capital)))
  }

  /**
   The fitted figures of a response on the aligned pair `a`: hedge ratio
   and intercept are Engle-Granger's on (y, x) = (tickers[1], tickers[0]);
   the capital base is `CapitalBase` of the two legs and that hedge ratio;
   the z-score and positions are those `ZAndSignals` derives from the
   response's spread.
   */
  predicate Fitted(r: Response, a: Table, req: Params, engleGranger: (seq<real>, seq<real>) -> (real, real),
                   sampleSd: seq<real> -> Option<real>)
    requires Resolved(req) && Rectangular(a) && |a.names| == 2 && |a.rows| > 0
    requires forall i :: 0 <= i < |a.rows| ==> Complete(a.rows[i])
  {
    var y := PairColumn(a, 1);
    var x := PairColumn(a, 0);
    var eg := engleGranger(y, x);
    var zs := ZAndSignals(r.spread, req, sampleSd);
    && r.hedgeRatio == eg.0 && r.intercept == eg.1
    && r.estimatedCapital == CapitalBase(y, x, eg.0)
    && r.zscore == zs.0
    && r.position == HeldPositions(SignalValues(zs.1))
  }

  /** What every successful response satisfies: one entry per date in every series and the relations above. */
  predicate Consistent(r: Response) {
    var n := |r.dates|;
    && |r.priceY| == n && |r.zscore| == n
    && FitsSpread(r.spread, r.priceY, r.priceX, r.hedgeRatio, r.intercept)
    && EarnsSpreadChange(r.pnl, r.position, r.spread)
    && CompoundsOn(r.equity, r.pnl, r.estimatedCapital)
  }
}
