/**
 * The page around the loader (src/main.ts): the controls are disabled while
 * the dataset loads and re-enabled only when the load succeeds; the search
 * box issues no query for a blank term; every query handler opens a
 * connection, runs one statement, shows its result or its error and closes
 * the connection whatever happened.
 */
module Page {
  import opened Wrappers
  import opened Strings
  import opened Engine
  import opened Loader

  // ---------------------------------------------------------------------
  // `String.prototype.trim` and the search-term guard

  /** ECMAScript WhiteSpace and LineTerminator code points. */
  predicate IsJsSpace(c: char)
  {
    c == '\t' || c == '\n' || c == '\U{B}' || c == '\U{C}' || c == '\r' || c == ' '
    || c == '\U{A0}' || c == '\U{1680}' || ('\U{2000}' <= c <= '\U{200A}')
    || c == '\U{2028}' || c == '\U{2029}' || c == '\U{202F}' || c == '\U{205F}'
    || c == '\U{3000}' || c == '\U{FEFF}'
  }

  /** The term the search box queries for, if any. */
  function SearchTerm(value: string): (term: Option<string>)
    ensures term.None? <==> forall i :: 0 <= i < |value| ==> IsJsSpace(value[i])
    ensures term.Some? ==> |term.value| > 0 && !IsJsSpace(term.value[0])
                           && !IsJsSpace(term.value[|term.value| - 1])
  {
    var t := Trim(value, IsJsSpace);
    if t == [] then None else Some(t)
  }

  // ---------------------------------------------------------------------
  // Query handlers

  /** What the result area shows. */
  datatype Display =
    | Blank                         // `innerHTML = ''`
    | Results(stmt: Statement)      // `displayResults` of the statement's rows
    | QueryError(stmt: Statement)   // `displayError` for a failed statement
    | LoadFailure(error: LoadError) // `displayError` for a failed load

  /** The shared shape of the editor's run button, the two statistics
      buttons and a non-blank search: connect, run, show, and close in
      `finally`. */
  function HandleQuery(s: EngineState, stmt: Statement, oracle: Oracle): (r: (EngineState, Display))
    ensures r.0.open == s.open
    ensures r.0.files == s.files
    ensures r.0.log == s.log + [Connected, Executed(stmt), Closed]
    ensures r.1.Results? <==> Succeeds(s, stmt, oracle)
    ensures r.1.Results? || r.1.QueryError?
    ensures r.1.stmt == stmt
    ensures !r.1.Results? ==> r.0.tables == s.tables
    ensures r.1.Results? && (stmt.Interactive? || stmt.SearchWorks?) ==> r.0.tables == oracle.effect(s.tables, stmt)
  {
    var (e, ok) := Execute(OpenConnection(s), stmt, oracle);
    (CloseConnection(e), if ok then Results(stmt) else QueryError(stmt))
  }

  /** The search box's `input` handler. */
  function HandleSearch(s: EngineState, value: string, oracle: Oracle): (r: (EngineState, Display))
    ensures r.0.open == s.open
    ensures SearchTerm(value).None? ==> r.1 == Blank
    ensures SearchTerm(value).Some? ==> r.0.log == s.log + [Connected, Executed(SearchWorks(SearchTerm(value).value)), Closed]
  {
    match SearchTerm(value)
    case None => (s, Blank)
    case Some(term) => HandleQuery(s, SearchWorks(term), oracle)
  }

  /** A blank search value leaves the engine untouched and clears the
      results; any other value reaches the engine. */
  lemma BlankSearchIssuesNoQuery(s: EngineState, value: string, oracle: Oracle)
    ensures HandleSearch(s, value, oracle).0 == s <==> forall i :: 0 <= i < |value| ==> IsJsSpace(value[i])
    ensures (forall i :: 0 <= i < |value| ==> IsJsSpace(value[i])) ==> HandleSearch(s, value, oracle).1 == Blank
  {
    var r := HandleSearch(s, value, oracle);
    if SearchTerm(value).Some? {
      assert |r.0.log| == |s.log| + 3;
    }
  }

  // ---------------------------------------------------------------------
  // Controls and startup

  /** A button or the search input; `disabled` is the DOM property. */
  class Control {
    var disabled: bool

    constructor (disabled: bool)
      ensures this.disabled == disabled
    {
      this.disabled := disabled;
    }
  }

  /** The `for (const button of [...]) if (button) button.disabled = ...`
      loop: every control that exists gets the flag; missing ones are skipped. */
  method SetDisabled(controls: seq<Control?>, disabled: bool)
    modifies set c: Control | c in controls
    ensures forall c: Control :: c in controls ==> c.disabled == disabled
  {
    var i := 0;
    while i < |controls|
      invariant 0 <= i <= |controls|
      invariant forall j :: 0 <= j < i && controls[j] != null ==> controls[j].disabled == disabled
    {
      if controls[i] != null {
        controls[i].disabled := disabled;
      }
      i := i + 1;
    }
  }

  class Page {
    var display: Display
    /** `editor.dom.style.pointerEvents` is `'auto'`. */
    var editorInteractive: bool
    /** The analyze, author-statistics, yearly-statistics and clear buttons
        and the search input; `null` where the element is missing. */
    const controls: seq<Control?>

    constructor (controls: seq<Control?>)
      ensures display == Blank && editorInteractive && this.controls == controls
    {
      display := Blank;
      editorInteractive := true;
      this.controls := controls;
    }

    method RunQuery(engine: QueryEngine, stmt: Statement)
      modifies this, engine
      ensures (engine.State(), display) == HandleQuery(old(engine.State()), stmt, engine.oracle)
      ensures editorInteractive == old(editorInteractive)
    {
      engine.Connect();
      var ok := engine.Query(stmt);
      if ok {
        display := Results(stmt);
      } else {
        display := QueryError(stmt);
      }
      engine.Close();
    }

    method OnSearchInput(engine: QueryEngine, value: string)
      modifies this, engine
      ensures (engine.State(), display) == HandleSearch(old(engine.State()), value, engine.oracle)
      ensures editorInteractive == old(editorInteractive)
    {
      var term := Trim(value, IsJsSpace);
      if term == [] {
        display := Blank;
        return;
      }
      RunQuery(engine, SearchWorks(term));
    }

    /** The clear button. */
    method OnClear()
      modifies this
      ensures display == Blank && editorInteractive == old(editorInteractive)
    {
      display := Blank;
    }

    /** Page start-up: disable the controls and the editor, load the
        dataset, then re-enable them only if the load succeeded; otherwise
        show the load error. */
    method Start(engine: QueryEngine, net: Network, base: string) returns (r: Outcome<LoadError>)
      modifies this, engine, net, set c: Control | c in controls
      ensures (World(engine.State(), net.requests), r)
           == LoadSpec(World(old(engine.State()), old(net.requests)), base, net.respond, engine.oracle)
      ensures forall c: Control :: c in controls ==> c.disabled == !r.Pass?
      ensures editorInteractive == r.Pass?
      ensures display == if r.Pass? then old(display) else LoadFailure(r.error)
    {
      SetDisabled(controls, true);
      editorInteractive := false;
      r := LoadParquetParts(engine, net, base);
      if r.Pass? {
        SetDisabled(controls, false);
        editorInteractive := true;
      } else {
        display := LoadFailure(r.error);
      }
    }
  }
}
