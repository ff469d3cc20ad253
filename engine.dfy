/**
 * The collaborators of the browser page, at their interfaces only: the
 * embedded query engine (connections, virtual files registered from byte
 * buffers, SQL statements) and the network (`fetch`). Query execution and
 * Parquet decoding are not modelled: a table is the sequence of part
 * contents appended to it. The rules kept are that CREATE fails on an
 * existing table and INSERT needs one; what the engine decides from the
 * bytes or the SQL text (whether a buffer reads as Parquet, whether its
 * columns fit the table, whether an editor statement runs and what it does
 * to the tables) is left to an `Oracle`.
 */
module Engine {

  type Bytes = seq<bv8>

  /** The one table the page builds and queries. */
  const TableName: string := "aozora_combined"

  /** The statements the page issues. */
  datatype Statement =
    | CreateTableAs(table: string, file: string)  // CREATE TABLE t AS SELECT * FROM read_parquet(file)
    | InsertSelect(table: string, file: string)   // INSERT INTO t SELECT * FROM read_parquet(file)
    | CountRows(table: string)                    // SELECT COUNT(*) FROM t
    | Interactive(sql: string)                    // the editor's query, or a statistics query
    | SearchWorks(term: string)                   // the search box query for a non-empty term

  /** Everything issued against the engine, in order. */
  datatype Event =
    | Connected
    | Registered(name: string, data: Bytes)
    | Executed(stmt: Statement)
    | Closed

  /** The abstract value of the engine. */
  datatype EngineState = EngineState(
    files: map<string, Bytes>,          // registered virtual files
    tables: map<string, seq<Bytes>>,    // table name -> contents appended, in order
    open: nat,                          // connections acquired and not yet closed
    log: seq<Event>)

  // The transitions below define the engine's interface; what the page
  // relies on is proved about the states they produce.

  function OpenConnection(s: EngineState): (t: EngineState)
    ensures t.open == s.open + 1 && t.log == s.log + [Connected]
    ensures t.files == s.files && t.tables == s.tables
  {
    s.(open := s.open + 1, log := s.log + [Connected])
  }

  function CloseConnection(s: EngineState): (t: EngineState)
    requires s.open > 0
    ensures t.open == s.open - 1 && t.log == s.log + [Closed]
    ensures t.files == s.files && t.tables == s.tables
  {
    s.(open := s.open - 1, log := s.log + [Closed])
  }

  /** `registerFileBuffer(name, data)`: creates or replaces a virtual file. */
  function Register(s: EngineState, name: string, data: Bytes): (t: EngineState)
    ensures t.files == s.files[name := data]
    ensures t.tables == s.tables && t.open == s.open && t.log == s.log + [Registered(name, data)]
  {
    s.(files := s.files[name := data], log := s.log + [Registered(name, data)])
  }

  /** What the engine decides that the model does not compute:
      `readable(b)`: `read_parquet` reads the buffer `b` as Parquet;
      `appendable(t, b)`: the rows of `b` fit a table holding `t` (same columns);
      `accepts(stmt)`: an editor, statistics or search statement runs;
      `effect(t, stmt)`: the tables after such a statement ran (the editor
      runs any SQL, and the search interpolates its term into the SQL). */
  datatype Oracle = Oracle(
    readable: Bytes -> bool,
    appendable: (seq<Bytes>, Bytes) -> bool,
    accepts: Statement -> bool,
    effect: (map<string, seq<Bytes>>, Statement) -> map<string, seq<Bytes>>)

  /** Whether a statement succeeds. */
  predicate Succeeds(s: EngineState, stmt: Statement, oracle: Oracle)
  {
    match stmt
    case CreateTableAs(t, f) => t !in s.tables && f in s.files && oracle.readable(s.files[f])
    case InsertSelect(t, f) =>
      t in s.tables && f in s.files && oracle.readable(s.files[f]) && oracle.appendable(s.tables[t], s.files[f])
    case CountRows(t) => t in s.tables
    case Interactive(_) => oracle.accepts(stmt)
    case SearchWorks(_) => oracle.accepts(stmt)
  }

  /** Tables after a successful statement. */
  function Apply(s: EngineState, stmt: Statement, oracle: Oracle): map<string, seq<Bytes>>
  {
    match stmt
    case CreateTableAs(t, f) => if f in s.files then s.tables[t := [s.files[f]]] else s.tables
    case InsertSelect(t, f) =>
      if t in s.tables && f in s.files then s.tables[t := s.tables[t] + [s.files[f]]] else s.tables
    case CountRows(_) => s.tables
    case Interactive(_) => oracle.effect(s.tables, stmt)
    case SearchWorks(_) => oracle.effect(s.tables, stmt)
  }

  /** `conn.query(sql)`: the statement is logged whether or not it succeeds;
      a failed statement changes no table. */
  function Execute(s: EngineState, stmt: Statement, oracle: Oracle): (r: (EngineState, bool))
    ensures r.1 == Succeeds(s, stmt, oracle)
    ensures r.0.log == s.log + [Executed(stmt)] && r.0.files == s.files && r.0.open == s.open
    ensures !r.1 || stmt.CountRows? ==> r.0.tables == s.tables
    ensures stmt.CreateTableAs? && r.1 ==> r.0.tables == s.tables[stmt.table := [s.files[stmt.file]]]
    ensures stmt.InsertSelect? && r.1 ==>
      r.0.tables == s.tables[stmt.table := s.tables[stmt.table] + [s.files[stmt.file]]]
    ensures (stmt.Interactive? || stmt.SearchWorks?) && r.1 ==> r.0.tables == oracle.effect(s.tables, stmt)
  {
    var ok := Succeeds(s, stmt, oracle);
    (s.(tables := if ok then Apply(s, stmt, oracle) else s.tables, log := s.log + [Executed(stmt)]), ok)
  }

  /** The in-browser engine instance (`AsyncDuckDB`). */
  class QueryEngine {
    var files: map<string, Bytes>
    var tables: map<string, seq<Bytes>>
    var openConnections: nat
    var log: seq<Event>
    const oracle: Oracle

    function State(): EngineState
      reads this
    {
      EngineState(files, tables, openConnections, log)
    }

    constructor (oracle: Oracle)
      ensures State() == EngineState(map[], map[], 0, [])
      ensures this.oracle == oracle
    {
      files, tables, openConnections, log := map[], map[], 0, [];
      this.oracle := oracle;
    }

    method Connect()
      modifies this
      ensures State() == OpenConnection(old(State()))
    {
      openConnections := openConnections + 1;
      log := log + [Connected];
    }

    method Close()
      requires openConnections > 0
      modifies this
      ensures State() == CloseConnection(old(State()))
    {
      openConnections := openConnections - 1;
      log := log + [Closed];
    }

    method RegisterFileBuffer(name: string, data: Bytes)
      modifies this
      ensures State() == Register(old(State()), name, data)
    {
      files := files[name := data];
      log := log + [Registered(name, data)];
    }

    method Query(stmt: Statement) returns (ok: bool)
      modifies this
      ensures (State(), ok) == Execute(old(State()), stmt, oracle)
    {
      ok := Succeeds(State(), stmt, oracle);
      if ok {
        tables := Apply(State(), stmt, oracle);
      }
      log := log + [Executed(stmt)];
    }
  }

  /** What `fetch` yields for a URL: a response (with `ok`, `statusText` and
      the body bytes) or a rejected promise. */
  datatype Response = Reply(ok: bool, statusText: string, body: Bytes) | Rejected

  /** The network as an oracle that also records the requests made. */
  class Network {
    const respond: string -> Response
    var requests: seq<string>

    constructor (respond: string -> Response)
      ensures this.respond == respond && requests == []
    {
      this.respond := respond;
      requests := [];
    }

    method Fetch(url: string) returns (r: Response)
      modifies this
      ensures r == respond(url) && requests == old(requests) + [url]
    {
      r := respond(url);
      requests := requests + [url];
    }
  }
}
