/**
 * `loadParquetParts` (src/main.ts): fetches the dataset fragments in index
 * order over one engine connection, registers each fragment's bytes as a
 * virtual file, creates the table from fragment 0 and appends every later
 * fragment, runs a row-count query and closes the connection. The first
 * failure (a rejected fetch, a non-OK response, a failed statement) is
 * thrown to the caller; the connection is then left open.
 */
module Loader {
  import opened Wrappers
  import opened Strings
  import opened PartNames
  import opened Engine
  import opened SeqFacts

  /** What the loader throws. */
  datatype LoadError =
    | FetchRejected(part: nat)                  // `fetch` or `arrayBuffer` rejected
    | BadStatus(part: nat, statusText: string)  // "Failed to fetch part i: <statusText>"
    | QueryFailed(part: nat)                    // the part's CREATE or INSERT failed
    | VerificationFailed                        // the final row count failed

  /** URL of fragment `i`; `base` stands for the resolved
      `window.location.origin + BASE_URL` directory. */
  function PartUrl(base: string, i: nat): string
  {
    base + PartFileName(i)
  }

  /** Distinct fragments are fetched from distinct URLs. */
  lemma PartUrlInjective(base: string, i: nat, j: nat)
    requires PartUrl(base, i) == PartUrl(base, j)
    ensures i == j
  {
    assert PartUrl(base, i)[|base|..] == PartFileName(i);
    assert PartUrl(base, j)[|base|..] == PartFileName(j);
    PartFileNameInjective(i, j);
  }

  /** The statement issued for fragment `i`: CREATE for fragment 0, INSERT
      for every later one. Fragment 0's statement names its file literally. */
  function PartStatement(i: nat): (stmt: Statement)
    ensures stmt.CreateTableAs? <==> i == 0
    ensures stmt.InsertSelect? <==> i > 0
    ensures stmt.table == TableName
  {
    if i == 0 then CreateTableAs(TableName, "part0.parquet")
    else InsertSelect(TableName, VirtualName(i))
  }

  /** Every fragment's statement reads exactly the virtual file the loader
      registered for that fragment. */
  lemma StatementReadsRegisteredFile(i: nat)
    ensures PartStatement(i).file == VirtualName(i)
  {
    if i == 0 {
      assert DecimalString(0) == "0";
    }
  }

  predicate PartOk(respond: string -> Response, base: string, i: nat)
  {
    respond(PartUrl(base, i)).Reply? && respond(PartUrl(base, i)).ok
  }

  function Body(respond: string -> Response, base: string, i: nat): Bytes
  {
    match respond(PartUrl(base, i))
    case Reply(_, _, body) => body
    case Rejected => []
  }

  /** The engine and the network requests made so far. */
  datatype World = World(engine: EngineState, requests: seq<string>)

  /** The loop of `loadParquetParts` from index `i` on, over an open connection. */
  function LoadFrom(w: World, base: string, respond: string -> Response,
                    oracle: Oracle, i: nat): (World, Outcome<LoadError>)
    requires w.engine.open > 0
    decreases TotalParts as int - i
  {
    if i >= TotalParts then
      var (e, ok) := Execute(w.engine, CountRows(TableName), oracle);
      if !ok then (World(e, w.requests), Fail(VerificationFailed))
      else (World(CloseConnection(e), w.requests), Pass)
    else
      var url := PartUrl(base, i);
      var requests := w.requests + [url];
      match respond(url)
      case Rejected => (World(w.engine, requests), Fail(FetchRejected(i)))
      case Reply(ok, statusText, body) =>
        if !ok then (World(w.engine, requests), Fail(BadStatus(i, statusText)))
        else
          var (e, done) := Execute(Register(w.engine, VirtualName(i), body), PartStatement(i), oracle);
          if !done then (World(e, requests), Fail(QueryFailed(i)))
          else LoadFrom(World(e, requests), base, respond, oracle, i + 1)
  }

  /** The whole of `loadParquetParts`: connect, then the loop from 0. */
  function LoadSpec(w: World, base: string, respond: string -> Response,
                    oracle: Oracle): (World, Outcome<LoadError>)
  {
    LoadFrom(World(OpenConnection(w.engine), w.requests), base, respond, oracle, 0)
  }

  method LoadParquetParts(engine: QueryEngine, net: Network, base: string) returns (r: Outcome<LoadError>)
    modifies engine, net
    ensures (World(engine.State(), net.requests), r)
         == LoadSpec(World(old(engine.State()), old(net.requests)), base, net.respond, engine.oracle)
  {
    ghost var w0 := World(old(engine.State()), old(net.requests));
    engine.Connect();
    var i := 0;
    while i < TotalParts
      invariant 0 <= i <= TotalParts
      invariant engine.openConnections > 0
      invariant LoadFrom(World(engine.State(), net.requests), base, net.respond, engine.oracle, i)
             == LoadSpec(w0, base, net.respond, engine.oracle)
    {
      ghost var w := World(engine.State(), net.requests);
      var response := net.Fetch(PartUrl(base, i));
      if response.Rejected? {
        assert LoadFrom(w, base, net.respond, engine.oracle, i)
            == (World(engine.State(), net.requests), Fail(FetchRejected(i)));
        return Fail(FetchRejected(i));
      }
      if !response.ok {
        assert LoadFrom(w, base, net.respond, engine.oracle, i)
            == (World(engine.State(), net.requests), Fail(BadStatus(i, response.statusText)));
        return Fail(BadStatus(i, response.statusText));
      }
      engine.RegisterFileBuffer(VirtualName(i), response.body);
      var stmt;
      if i == 0 {
        stmt := CreateTableAs(TableName, "part0.parquet");
      } else {
        stmt := InsertSelect(TableName, VirtualName(i));
      }
      var ok := engine.Query(stmt);
      if !ok {
        assert LoadFrom(w, base, net.respond, engine.oracle, i)
            == (World(engine.State(), net.requests), Fail(QueryFailed(i)));
        return Fail(QueryFailed(i));
      }
      i := i + 1;
    }
    var counted := engine.Query(CountRows(TableName));
    if !counted {
      return Fail(VerificationFailed);
    }
    engine.Close();
    return Pass;
  }

  // ---------------------------------------------------------------------
  // The trace of a run in which fragments i .. k-1 all load

  /** URLs of fragments `lo` .. `hi - 1`, in index order. */
  function Urls(base: string, lo: nat, hi: nat): (urls: seq<string>)
    ensures |urls| == if lo <= hi then hi - lo else 0
    decreases hi as int - lo
  {
    if lo >= hi then [] else [PartUrl(base, lo)] + Urls(base, lo + 1, hi)
  }

  /** Contents of fragments `lo` .. `hi - 1`, in index order. */
  function Bodies(respond: string -> Response, base: string, lo: nat, hi: nat): (bodies: seq<Bytes>)
    ensures |bodies| == if lo <= hi then hi - lo else 0
    decreases hi as int - lo
  {
    if lo >= hi then [] else [Body(respond, base, lo)] + Bodies(respond, base, lo + 1, hi)
  }

  /** The requests are the fragment URLs in ascending index order, with no
      gaps. */
  lemma {:induction false} UrlsAt(base: string, lo: nat, hi: nat)
    requires lo <= hi
    ensures forall k :: 0 <= k < hi - lo ==> Urls(base, lo, hi)[k] == PartUrl(base, lo + k)
    decreases hi - lo
  {
    if lo < hi {
      UrlsAt(base, lo + 1, hi);
    }
  }

  /** No fragment URL is requested twice. */
  lemma UrlsDistinct(base: string, lo: nat, hi: nat)
    requires lo <= hi
    ensures forall k, m :: 0 <= k < m < hi - lo ==> Urls(base, lo, hi)[k] != Urls(base, lo, hi)[m]
  {
    UrlsAt(base, lo, hi);
    var urls := Urls(base, lo, hi);
    forall k, m | 0 <= k < m < hi - lo
      ensures urls[k] != urls[m]
    {
      if urls[k] == urls[m] {
        PartUrlInjective(base, lo + k, lo + m);
      }
    }
  }

  /** The table built by a successful load holds fragment k's contents at
      position k. */
  lemma {:induction false} BodiesAt(respond: string -> Response, base: string, lo: nat, hi: nat)
    requires lo <= hi
    ensures forall k :: 0 <= k < hi - lo ==> Bodies(respond, base, lo, hi)[k] == Body(respond, base, lo + k)
    decreases hi - lo
  {
    if lo < hi {
      BodiesAt(respond, base, lo + 1, hi);
    }
  }

  /** Engine events of fragments `lo` .. `hi - 1`: register, then execute. */
  function PartEvents(respond: string -> Response, base: string, lo: nat, hi: nat): seq<Event>
    decreases hi as int - lo
  {
    if lo >= hi then []
    else [Registered(VirtualName(lo), Body(respond, base, lo)), Executed(PartStatement(lo))]
         + PartEvents(respond, base, lo + 1, hi)
  }

  /** One successful iteration of the loop for fragment `i`. */
  function Step(w: World, base: string, respond: string -> Response,
                oracle: Oracle, i: nat): World
  {
    var e := Register(w.engine, VirtualName(i), Body(respond, base, i));
    World(Execute(e, PartStatement(i), oracle).0, w.requests + [PartUrl(base, i)])
  }

  /** A successful iteration for fragment `i` continues the loop at `i + 1`. */
  lemma LoadFromStep(w: World, base: string, respond: string -> Response, oracle: Oracle, i: nat)
    requires w.engine.open > 0 && i < TotalParts && PartOk(respond, base, i)
    requires Succeeds(Register(w.engine, VirtualName(i), Body(respond, base, i)), PartStatement(i), oracle)
    ensures Step(w, base, respond, oracle, i).engine.open == w.engine.open
    ensures LoadFrom(w, base, respond, oracle, i) == LoadFrom(Step(w, base, respond, oracle, i), base, respond, oracle, i + 1)
  {
    var r := respond(PartUrl(base, i));
    assert r == Reply(true, r.statusText, Body(respond, base, i));
  }

  /** One CREATE iteration for fragment 0 whose bytes read as Parquet
      succeeds and starts the table with fragment 0's contents. */
  lemma StepCreate(w: World, base: string, respond: string -> Response, oracle: Oracle)
    requires TableName !in w.engine.tables && oracle.readable(Body(respond, base, 0))
    ensures Succeeds(Register(w.engine, VirtualName(0), Body(respond, base, 0)), PartStatement(0), oracle)
    ensures var s := Step(w, base, respond, oracle, 0);
      && s.engine.open == w.engine.open
      && s.engine.tables == w.engine.tables[TableName := [Body(respond, base, 0)]]
      && s.engine.log == w.engine.log + [Registered(VirtualName(0), Body(respond, base, 0)), Executed(PartStatement(0))]
      && s.requests == w.requests + [PartUrl(base, 0)]
  {
    StatementReadsRegisteredFile(0);
  }

  /** One INSERT iteration for a later fragment whose bytes read as Parquet
      and fit the table succeeds and appends the fragment to the table. */
  lemma StepInsert(w: World, base: string, respond: string -> Response, oracle: Oracle, i: nat)
    requires 1 <= i && TableName in w.engine.tables
    requires PartLoads(oracle, w.engine.tables[TableName], Body(respond, base, i), i)
    ensures Succeeds(Register(w.engine, VirtualName(i), Body(respond, base, i)), PartStatement(i), oracle)
    ensures var s := Step(w, base, respond, oracle, i);
      && s.engine.open == w.engine.open
      && s.engine.tables == w.engine.tables[TableName := w.engine.tables[TableName] + [Body(respond, base, i)]]
      && s.engine.log == w.engine.log + [Registered(VirtualName(i), Body(respond, base, i)), Executed(PartStatement(i))]
      && s.requests == w.requests + [PartUrl(base, i)]
  {
    StatementReadsRegisteredFile(i);
  }

  /** Fragment `i`'s statement succeeds on its bytes `b` over a table that
      already holds `t`: `read_parquet` reads `b`, and for a later fragment
      (an INSERT) the rows of `b` fit the table. Fragment 0 creates the
      table, so only readability matters there. */
  predicate PartLoads(oracle: Oracle, t: seq<Bytes>, b: Bytes, i: nat)
  {
    oracle.readable(b) && (i > 0 ==> oracle.appendable(t, b))
  }

  /** Fragments `lo` .. `hi - 1` each load on top of `t` followed by the
      fragments before them in the run. */
  predicate AllLoad(oracle: Oracle, respond: string -> Response, base: string, t: seq<Bytes>, lo: nat, hi: nat)
  {
    forall j :: lo <= j < hi ==> PartLoads(oracle, t + Bodies(respond, base, lo, j), Body(respond, base, j), j)
  }

  /** Fragment `j` loads after fragments 0 .. j-1 of the same run. */
  predicate Loads(oracle: Oracle, respond: string -> Response, base: string, j: nat)
  {
    PartLoads(oracle, Bodies(respond, base, 0, j), Body(respond, base, j), j)
  }

  /** The first fragment of a run that all loads loads on `t`, and the rest
      load on `t` extended by it. */
  lemma LoadsShift(oracle: Oracle, respond: string -> Response, base: string, t: seq<Bytes>, i: nat, hi: nat)
    requires i < hi && AllLoad(oracle, respond, base, t, i, hi)
    ensures PartLoads(oracle, t, Body(respond, base, i), i)
    ensures AllLoad(oracle, respond, base, t + [Body(respond, base, i)], i + 1, hi)
  {
    var b := Body(respond, base, i);
    assert Bodies(respond, base, i, i) == [] && t + [] == t;
    forall j | i + 1 <= j < hi
      ensures PartLoads(oracle, t + [b] + Bodies(respond, base, i + 1, j), Body(respond, base, j), j)
    {
      assert Bodies(respond, base, i, j) == [b] + Bodies(respond, base, i + 1, j);
      AppendAssoc(t, [b], Bodies(respond, base, i + 1, j));
    }
  }

  /** Every fragment of a load from 0 loads after the ones before it exactly
      when, once fragment 0 is in the table, the rest load on top of it. */
  lemma LoadsFromFirst(oracle: Oracle, respond: string -> Response, base: string, hi: nat)
    requires 0 < hi && forall j :: 0 <= j < hi ==> Loads(oracle, respond, base, j)
    ensures oracle.readable(Body(respond, base, 0))
    ensures AllLoad(oracle, respond, base, [Body(respond, base, 0)], 1, hi)
  {
    var b := Body(respond, base, 0);
    assert Loads(oracle, respond, base, 0);
    forall j | 1 <= j < hi
      ensures PartLoads(oracle, [b] + Bodies(respond, base, 1, j), Body(respond, base, j), j)
    {
      assert Loads(oracle, respond, base, j);
      assert Bodies(respond, base, 0, j) == [b] + Bodies(respond, base, 1, j);
    }
  }

  /** From fragment `i >= 1` on, over an existing table, when every remaining
      fragment fetches OK and loads, the loop appends them all in order, runs
      the row count and closes the connection. */
  lemma {:induction false} LoadFromSucceeds(w: World, base: string, respond: string -> Response,
                                            oracle: Oracle, i: nat)
    requires w.engine.open > 0 && 1 <= i <= TotalParts && TableName in w.engine.tables
    requires forall j :: i <= j < TotalParts ==> PartOk(respond, base, j)
    requires AllLoad(oracle, respond, base, w.engine.tables[TableName], i, TotalParts)
    ensures var (w', r) := LoadFrom(w, base, respond, oracle, i);
      && r == Pass
      && w'.engine.open == w.engine.open - 1
      && w'.engine.tables
         == w.engine.tables[TableName := w.engine.tables[TableName] + Bodies(respond, base, i, TotalParts)]
      && w'.engine.log
         == w.engine.log + PartEvents(respond, base, i, TotalParts) + [Executed(CountRows(TableName)), Closed]
      && w'.requests == w.requests + Urls(base, i, TotalParts)
    decreases TotalParts - i
  {
    var t := w.engine.tables[TableName];
    if i == TotalParts {
      LoadFromFinishes(w, base, respond, oracle);
    } else {
      var s := Step(w, base, respond, oracle, i);
      var b := Body(respond, base, i);
      var evs := [Registered(VirtualName(i), b), Executed(PartStatement(i))];
      var events := PartEvents(respond, base, i + 1, TotalParts);
      LoadsShift(oracle, respond, base, t, i, TotalParts);
      StepInsert(w, base, respond, oracle, i);
      LoadFromStep(w, base, respond, oracle, i);
      LoadFromSucceeds(s, base, respond, oracle, i + 1);
      AppendAssoc(t, [b], Bodies(respond, base, i + 1, TotalParts));
      AppendAssoc(w.engine.log, evs, events);
      AppendAssoc(w.requests, [PartUrl(base, i)], Urls(base, i + 1, TotalParts));
      UpdateTwice(w.engine.tables, TableName, t + [b], t + [b] + Bodies(respond, base, i + 1, TotalParts));
    }
  }

  /** After the last fragment the loop counts the rows and closes the
      connection. */
  lemma LoadFromFinishes(w: World, base: string, respond: string -> Response, oracle: Oracle)
    requires w.engine.open > 0 && TableName in w.engine.tables
    ensures var (w', r) := LoadFrom(w, base, respond, oracle, TotalParts);
      && r == Pass
      && w'.engine.open == w.engine.open - 1
      && w'.engine.tables
         == w.engine.tables[TableName := w.engine.tables[TableName] + Bodies(respond, base, TotalParts, TotalParts)]
      && w'.engine.log
         == w.engine.log + PartEvents(respond, base, TotalParts, TotalParts) + [Executed(CountRows(TableName)), Closed]
      && w'.requests == w.requests + Urls(base, TotalParts, TotalParts)
  {
    AppendEmpty(w.engine.tables[TableName]);
    UpdateSame(w.engine.tables, TableName);
    AppendEmpty(w.engine.log);
    AppendEmpty(w.requests);
  }

  /** On an engine without the table, when every fragment fetches OK, reads
      as Parquet and fits the table built from the fragments before it, the
      load succeeds: one connection is opened and closed, the requests are
      the fragment URLs in index order, the engine sees each fragment's
      registration and statement in index order followed by the row count,
      and the table holds the fragments' contents in index order. */
  lemma LoadSucceeds(w: World, base: string, respond: string -> Response, oracle: Oracle)
    requires TableName !in w.engine.tables
    requires forall j :: 0 <= j < TotalParts ==> PartOk(respond, base, j)
    requires forall j :: 0 <= j < TotalParts ==> Loads(oracle, respond, base, j)
    ensures var (w', r) := LoadSpec(w, base, respond, oracle);
      && r == Pass
      && w'.engine.open == w.engine.open
      && w'.engine.tables == w.engine.tables[TableName := Bodies(respond, base, 0, TotalParts)]
      && w'.engine.log == w.engine.log + [Connected] + PartEvents(respond, base, 0, TotalParts)
                          + [Executed(CountRows(TableName)), Closed]
      && w'.requests == w.requests + Urls(base, 0, TotalParts)
  {
    var s := Step(World(OpenConnection(w.engine), w.requests), base, respond, oracle, 0);
    var b := Body(respond, base, 0);
    var evs := [Registered(VirtualName(0), b), Executed(PartStatement(0))];
    var events := PartEvents(respond, base, 1, TotalParts);
    LoadsFromFirst(oracle, respond, base, TotalParts);
    LoadSpecFirst(w, base, respond, oracle);
    LoadFromSucceeds(s, base, respond, oracle, 1);
    assert Bodies(respond, base, 0, TotalParts) == [b] + Bodies(respond, base, 1, TotalParts);
    assert PartEvents(respond, base, 0, TotalParts) == evs + events;
    assert Urls(base, 0, TotalParts) == [PartUrl(base, 0)] + Urls(base, 1, TotalParts);
    AppendAssoc(w.engine.log + [Connected], evs, events);
    AppendAssoc(w.requests, [PartUrl(base, 0)], Urls(base, 1, TotalParts));
    UpdateTwice(w.engine.tables, TableName, [b], [b] + Bodies(respond, base, 1, TotalParts));
  }

  /** What the loader throws when fragment `k`'s fetch is not OK. */
  function FetchError(respond: string -> Response, base: string, k: nat): (e: LoadError)
    ensures (e.FetchRejected? || e.BadStatus?) && e.part == k
    ensures e.FetchRejected? <==> respond(PartUrl(base, k)).Rejected?
  {
    if respond(PartUrl(base, k)).Rejected? then FetchRejected(k)
    else BadStatus(k, respond(PartUrl(base, k)).statusText)
  }

  /** What the loader throws when it stops at fragment `k`: the fetch error,
      or, when the fetch was OK, the failed CREATE or INSERT. */
  function AbortError(respond: string -> Response, base: string, k: nat): (e: LoadError)
    ensures !e.VerificationFailed? && e.part == k
    ensures e.QueryFailed? <==> PartOk(respond, base, k)
  {
    if PartOk(respond, base, k) then QueryFailed(k) else FetchError(respond, base, k)
  }

  /** The engine events of the fragment the load stops at: none after a
      failed fetch, its registration and its failed statement otherwise. */
  function AbortEvents(respond: string -> Response, base: string, k: nat): seq<Event>
  {
    if PartOk(respond, base, k) then [Registered(VirtualName(k), Body(respond, base, k)), Executed(PartStatement(k))]
    else []
  }

  /** From fragment `i >= 1` on, when fragment `k` is the first that does
      not fetch OK or does not load, the loop appends fragments i .. k-1,
      requests fragment k and throws for it. */
  lemma {:induction false} LoadFromAborts(w: World, base: string, respond: string -> Response,
                                          oracle: Oracle, i: nat, k: nat)
    requires w.engine.open > 0 && 1 <= i <= k < TotalParts && TableName in w.engine.tables
    requires forall j :: i <= j < k ==> PartOk(respond, base, j)
    requires AllLoad(oracle, respond, base, w.engine.tables[TableName], i, k)
    requires !PartOk(respond, base, k)
          || !PartLoads(oracle, w.engine.tables[TableName] + Bodies(respond, base, i, k), Body(respond, base, k), k)
    ensures var (w', r) := LoadFrom(w, base, respond, oracle, i);
      && r == Fail(AbortError(respond, base, k))
      && w'.engine.open == w.engine.open
      && w'.engine.tables
         == w.engine.tables[TableName := w.engine.tables[TableName] + Bodies(respond, base, i, k)]
      && w'.engine.log == w.engine.log + PartEvents(respond, base, i, k) + AbortEvents(respond, base, k)
      && w'.requests == w.requests + Urls(base, i, k + 1)
    decreases k - i
  {
    var t := w.engine.tables[TableName];
    if i == k {
      assert Bodies(respond, base, k, k) == [] && t + [] == t;
      LoadFromAbortsHere(w, base, respond, oracle, k);
    } else {
      var s := Step(w, base, respond, oracle, i);
      var b := Body(respond, base, i);
      LoadsShift(oracle, respond, base, t, i, k);
      StepInsert(w, base, respond, oracle, i);
      LoadFromStep(w, base, respond, oracle, i);
      assert Bodies(respond, base, i, k) == [b] + Bodies(respond, base, i + 1, k);
      AppendAssoc(t, [b], Bodies(respond, base, i + 1, k));
      LoadFromAborts(s, base, respond, oracle, i + 1, k);
      AppendAssoc(w.engine.log, [Registered(VirtualName(i), b), Executed(PartStatement(i))],
                  PartEvents(respond, base, i + 1, k));
      AppendAssoc(w.requests, [PartUrl(base, i)], Urls(base, i + 1, k + 1));
      UpdateTwice(w.engine.tables, TableName, t + [b], t + [b] + Bodies(respond, base, i + 1, k));
    }
  }

  /** At fragment `k`, a failed fetch ends the loop with only its request
      recorded; an OK fetch whose bytes do not load is registered, its
      statement fails and the loop throws with the table unchanged. */
  lemma LoadFromAbortsHere(w: World, base: string, respond: string -> Response,
                           oracle: Oracle, k: nat)
    requires w.engine.open > 0 && 1 <= k < TotalParts && TableName in w.engine.tables
    requires !PartOk(respond, base, k) || !PartLoads(oracle, w.engine.tables[TableName], Body(respond, base, k), k)
    ensures var (w', r) := LoadFrom(w, base, respond, oracle, k);
      && r == Fail(AbortError(respond, base, k))
      && w'.engine.open == w.engine.open
      && w'.engine.tables
         == w.engine.tables[TableName := w.engine.tables[TableName] + Bodies(respond, base, k, k)]
      && w'.engine.log == w.engine.log + PartEvents(respond, base, k, k) + AbortEvents(respond, base, k)
      && w'.requests == w.requests + Urls(base, k, k + 1)
  {
    AppendEmpty(w.engine.tables[TableName]);
    UpdateSame(w.engine.tables, TableName);
    AppendEmpty(w.engine.log);
    assert Urls(base, k, k + 1) == [PartUrl(base, k)];
    if PartOk(respond, base, k) {
      var r := respond(PartUrl(base, k));
      assert r == Reply(true, r.statusText, Body(respond, base, k));
      StatementReadsRegisteredFile(k);
    } else {
      AppendEmpty(w.engine.log + PartEvents(respond, base, k, k));
    }
  }

  /** A load whose fragment 0 fetches OK and reads as Parquet continues at
      fragment 1 after one connection, one request and the CREATE. */
  lemma LoadSpecFirst(w: World, base: string, respond: string -> Response, oracle: Oracle)
    requires TableName !in w.engine.tables
    requires PartOk(respond, base, 0) && oracle.readable(Body(respond, base, 0))
    ensures var s := Step(World(OpenConnection(w.engine), w.requests), base, respond, oracle, 0);
      && LoadSpec(w, base, respond, oracle) == LoadFrom(s, base, respond, oracle, 1)
      && s.engine.open == w.engine.open + 1
      && s.engine.tables == w.engine.tables[TableName := [Body(respond, base, 0)]]
      && s.engine.log == w.engine.log + [Connected]
                         + [Registered(VirtualName(0), Body(respond, base, 0)), Executed(PartStatement(0))]
      && s.requests == w.requests + [PartUrl(base, 0)]
  {
    var w1 := World(OpenConnection(w.engine), w.requests);
    StepCreate(w1, base, respond, oracle);
    LoadFromStep(w1, base, respond, oracle, 0);
  }

  /** When fragment `k` is the first that does not fetch OK or does not
      load (its bytes are not Parquet, or do not fit the table built from
      the fragments before it), the loader throws for `k` after requesting
      fragments 0 .. k only: a failed fetch registers nothing for `k`, a
      failed statement leaves the table as fragments 0 .. k-1 built it, no
      later fragment is touched, and the connection stays open. */
  lemma LoadAborts(w: World, base: string, respond: string -> Response,
                   oracle: Oracle, k: nat)
    requires TableName !in w.engine.tables
    requires k < TotalParts
    requires forall j :: 0 <= j < k ==> PartOk(respond, base, j) && Loads(oracle, respond, base, j)
    requires !PartOk(respond, base, k) || !Loads(oracle, respond, base, k)
    ensures var (w', r) := LoadSpec(w, base, respond, oracle);
      && r == Fail(AbortError(respond, base, k))
      && w'.engine.open == w.engine.open + 1
      && w'.engine.log == w.engine.log + [Connected] + PartEvents(respond, base, 0, k) + AbortEvents(respond, base, k)
      && w'.requests == w.requests + Urls(base, 0, k + 1)
      && w'.engine.tables == (if k == 0 then w.engine.tables
                              else w.engine.tables[TableName := Bodies(respond, base, 0, k)])
  {
    if k == 0 {
      LoadAbortsAtFirst(w, base, respond, oracle);
    } else {
      var s := Step(World(OpenConnection(w.engine), w.requests), base, respond, oracle, 0);
      var b := Body(respond, base, 0);
      var evs := [Registered(VirtualName(0), b), Executed(PartStatement(0))];
      LoadsFromFirst(oracle, respond, base, k);
      LoadSpecFirst(w, base, respond, oracle);
      assert Bodies(respond, base, 0, k) == [b] + Bodies(respond, base, 1, k);
      LoadFromAborts(s, base, respond, oracle, 1, k);
      AppendAssoc(w.engine.log + [Connected], evs, PartEvents(respond, base, 1, k));
      AppendAssoc(w.requests, [PartUrl(base, 0)], Urls(base, 1, k + 1));
      UpdateTwice(w.engine.tables, TableName, [b], [b] + Bodies(respond, base, 1, k));
    }
  }

  /** A load that stops at fragment 0 leaves the tables as they were. */
  lemma LoadAbortsAtFirst(w: World, base: string, respond: string -> Response, oracle: Oracle)
    requires TableName !in w.engine.tables
    requires !PartOk(respond, base, 0) || !Loads(oracle, respond, base, 0)
    ensures var (w', r) := LoadSpec(w, base, respond, oracle);
      && r == Fail(AbortError(respond, base, 0))
      && w'.engine.open == w.engine.open + 1
      && w'.engine.log == w.engine.log + [Connected] + PartEvents(respond, base, 0, 0) + AbortEvents(respond, base, 0)
      && w'.requests == w.requests + Urls(base, 0, 1)
      && w'.engine.tables == w.engine.tables
  {
    AppendEmpty(w.engine.log + [Connected]);
    assert Urls(base, 0, 1) == [PartUrl(base, 0)];
    if PartOk(respond, base, 0) {
      var r := respond(PartUrl(base, 0));
      assert r == Reply(true, r.statusText, Body(respond, base, 0));
      assert Bodies(respond, base, 0, 0) == [];
      StatementReadsRegisteredFile(0);
    } else {
      AppendEmpty(w.engine.log + [Connected] + PartEvents(respond, base, 0, 0));
    }
  }

  /** A second load in the same session fails at fragment 0's CREATE: the
      existing table keeps its contents and the connection stays open. */
  lemma SecondLoadFails(w: World, base: string, respond: string -> Response, oracle: Oracle)
    requires TableName in w.engine.tables
    requires PartOk(respond, base, 0)
    ensures var (w', r) := LoadSpec(w, base, respond, oracle);
      && r == Fail(QueryFailed(0))
      && w'.engine.tables == w.engine.tables
      && w'.engine.open == w.engine.open + 1
  {
  }

  /** On every path the connection is closed exactly when the load succeeds. */
  lemma {:induction false} LoadFromClosesOnlyOnSuccess(w: World, base: string, respond: string -> Response,
                                                       oracle: Oracle, i: nat)
    requires w.engine.open > 0
    ensures var (w', r) := LoadFrom(w, base, respond, oracle, i);
      w'.engine.open == if r.Pass? then w.engine.open - 1 else w.engine.open
    decreases TotalParts as int - i
  {
    if i < TotalParts {
      var url := PartUrl(base, i);
      if respond(url).Reply? && respond(url).ok {
        var (e, done) := Execute(Register(w.engine, VirtualName(i), respond(url).body), PartStatement(i), oracle);
        if done {
          LoadFromClosesOnlyOnSuccess(World(e, w.requests + [url]), base, respond, oracle, i + 1);
        }
      }
    }
  }

  lemma LoadClosesOnlyOnSuccess(w: World, base: string, respond: string -> Response, oracle: Oracle)
    ensures var (w', r) := LoadSpec(w, base, respond, oracle);
      w'.engine.open == if r.Pass? then w.engine.open else w.engine.open + 1
  {
    LoadFromClosesOnlyOnSuccess(World(OpenConnection(w.engine), w.requests), base, respond, oracle, 0);
  }

  // ---------------------------------------------------------------------
  // Statements issued by a successful load

  /** Fragment `lo + k`'s events sit at positions 2k and 2k+1, and its
      statement reads the file just registered. */
  lemma {:induction false} PartEventsAt(respond: string -> Response, base: string, lo: nat, hi: nat, k: nat)
    requires lo + k < hi
    ensures |PartEvents(respond, base, lo, hi)| == 2 * (hi - lo)
    ensures PartEvents(respond, base, lo, hi)[2 * k]
         == Registered(VirtualName(lo + k), Body(respond, base, lo + k))
    ensures PartEvents(respond, base, lo, hi)[2 * k + 1] == Executed(PartStatement(lo + k))
    ensures PartStatement(lo + k).file == VirtualName(lo + k)
    decreases hi as int - lo
  {
    StatementReadsRegisteredFile(lo + k);
    var rest := PartEvents(respond, base, lo + 1, hi);
    var head := [Registered(VirtualName(lo), Body(respond, base, lo)), Executed(PartStatement(lo))];
    assert PartEvents(respond, base, lo, hi) == head + rest;
    PartEventsLength(respond, base, lo + 1, hi);
    if k == 0 {
    } else {
      PartEventsAt(respond, base, lo + 1, hi, k - 1);
      AfterPair(head, rest, 2 * (k - 1));
    }
  }

  lemma AfterPair<T>(head: seq<T>, rest: seq<T>, j: nat)
    requires |head| == 2 && j + 1 < |rest|
    ensures (head + rest)[j + 2] == rest[j] && (head + rest)[j + 3] == rest[j + 1]
  {
  }

  lemma {:induction false} PartEventsLength(respond: string -> Response, base: string, lo: nat, hi: nat)
    ensures |PartEvents(respond, base, lo, hi)| == (if lo <= hi then 2 * (hi - lo) else 0)
    decreases hi as int - lo
  {
    if lo < hi {
      PartEventsLength(respond, base, lo + 1, hi);
    }
  }

  function CreateCount(log: seq<Event>): nat
  {
    if log == [] then 0
    else (if log[0].Executed? && log[0].stmt.CreateTableAs? then 1 else 0) + CreateCount(log[1..])
  }

  function InsertCount(log: seq<Event>): nat
  {
    if log == [] then 0
    else (if log[0].Executed? && log[0].stmt.InsertSelect? then 1 else 0) + InsertCount(log[1..])
  }

  lemma {:induction false} PartEventsCounts(respond: string -> Response, base: string, lo: nat, hi: nat)
    requires lo <= hi
    ensures CreateCount(PartEvents(respond, base, lo, hi)) == (if lo == 0 < hi then 1 else 0)
    ensures InsertCount(PartEvents(respond, base, lo, hi)) == (if lo == 0 < hi then hi - 1 else hi - lo)
    decreases hi as int - lo
  {
    if lo < hi {
      var rest := PartEvents(respond, base, lo + 1, hi);
      var stmt := PartStatement(lo);
      var evs := [Registered(VirtualName(lo), Body(respond, base, lo)), Executed(stmt)] + rest;
      assert PartEvents(respond, base, lo, hi) == evs;
      PartEventsCounts(respond, base, lo + 1, hi);
      CountsPair(Registered(VirtualName(lo), Body(respond, base, lo)), stmt, rest);
    }
  }

  /** A registration followed by a statement adds that statement's kind. */
  lemma CountsPair(reg: Event, stmt: Statement, rest: seq<Event>)
    requires !reg.Executed?
    ensures CreateCount([reg, Executed(stmt)] + rest) == (if stmt.CreateTableAs? then 1 else 0) + CreateCount(rest)
    ensures InsertCount([reg, Executed(stmt)] + rest) == (if stmt.InsertSelect? then 1 else 0) + InsertCount(rest)
  {
    var evs := [reg, Executed(stmt)] + rest;
    assert evs[1..] == [Executed(stmt)] + rest;
    assert evs[1..][1..] == rest;
  }

  lemma {:induction false} CountsAppend(a: seq<Event>, b: seq<Event>)
    ensures CreateCount(a + b) == CreateCount(a) + CreateCount(b)
    ensures InsertCount(a + b) == InsertCount(a) + InsertCount(b)
    decreases |a|
  {
    if a == [] {
      assert a + b == b;
    } else {
      assert (a + b)[1..] == a[1..] + b;
      CountsAppend(a[1..], b);
    }
  }

  /** A successful load adds exactly one CREATE and TotalParts - 1 INSERTs
      to the engine's log. */
  lemma SuccessfulLoadStatementCounts(w: World, base: string, respond: string -> Response, oracle: Oracle)
    requires TableName !in w.engine.tables
    requires forall j :: 0 <= j < TotalParts ==> PartOk(respond, base, j)
    requires forall j :: 0 <= j < TotalParts ==> Loads(oracle, respond, base, j)
    ensures var (w', r) := LoadSpec(w, base, respond, oracle);
      && r == Pass
      && CreateCount(w'.engine.log) == CreateCount(w.engine.log) + 1
      && InsertCount(w'.engine.log) == InsertCount(w.engine.log) + TotalParts - 1
  {
    LoadSucceeds(w, base, respond, oracle);
    PartEventsCounts(respond, base, 0, TotalParts);
    LoadLogCounts(w.engine.log, PartEvents(respond, base, 0, TotalParts));
  }

  /** Connecting, counting the rows and closing add no CREATE and no INSERT. */
  lemma LoadLogCounts(log: seq<Event>, events: seq<Event>)
    ensures var full := log + [Connected] + events + [Executed(CountRows(TableName)), Closed];
      && CreateCount(full) == CreateCount(log) + CreateCount(events)
      && InsertCount(full) == InsertCount(log) + InsertCount(events)
  {
    var tail := [Executed(CountRows(TableName)), Closed];
    assert [Connected][1..] == [] && tail[1..] == [Closed] && [Closed][1..] == [];
    CountsAppend(log, [Connected]);
    CountsAppend(log + [Connected], events);
    CountsAppend(log + [Connected] + events, tail);
  }
}
