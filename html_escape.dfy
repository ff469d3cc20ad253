/**
 * The cell rendering inside `displayResults` (src/main.ts): a string cell
 * goes through a chain of global literal replaces (a newline by itself,
 * then `&`, `<`, `>`, `"` and `'` by their character references); a null
 * cell renders as nothing; any other value as its `String(...)` form.
 */
module HtmlEscape {
  import opened Strings

  /** The five character references the chain produces. */
  const Amp: string := "&amp;"
  const Lt: string := "&lt;"
  const Gt: string := "&gt;"
  const Quot: string := "&quot;"
  const Apos: string := "&#039;"

  /** The replace chain, in the source's order. */
  function EscapeCell(s: string): string
  {
    var s1 := ReplaceAll(s, "\n", "\n");
    var s2 := ReplaceAll(s1, "&", Amp);
    var s3 := ReplaceAll(s2, "<", Lt);
    var s4 := ReplaceAll(s3, ">", Gt);
    var s5 := ReplaceAll(s4, "\"", Quot);
    ReplaceAll(s5, "'", Apos)
  }

  /** Reference definition: how one character is escaped. */
  function EscapeChar(c: char): (r: string)
    ensures |r| > 0
    ensures r[0] == '&' <==> c in "&<>\"'"
  {
    if c == '&' then Amp
    else if c == '<' then Lt
    else if c == '>' then Gt
    else if c == '"' then Quot
    else if c == '\'' then Apos
    else [c]
  }

  /** Reference definition: escape each character independently. */
  function EscapeEach(s: string): string
    decreases |s|
  {
    if s == [] then [] else EscapeChar(s[0]) + EscapeEach(s[1..])
  }

  lemma ChainConcat(a: string, b: string)
    ensures EscapeCell(a + b) == EscapeCell(a) + EscapeCell(b)
  {
    var a1, b1 := ReplaceAll(a, "\n", "\n"), ReplaceAll(b, "\n", "\n");
    ReplaceAllConcat(a, b, '\n', "\n");
    var a2, b2 := ReplaceAll(a1, "&", Amp), ReplaceAll(b1, "&", Amp);
    ReplaceAllConcat(a1, b1, '&', Amp);
    var a3, b3 := ReplaceAll(a2, "<", Lt), ReplaceAll(b2, "<", Lt);
    ReplaceAllConcat(a2, b2, '<', Lt);
    var a4, b4 := ReplaceAll(a3, ">", Gt), ReplaceAll(b3, ">", Gt);
    ReplaceAllConcat(a3, b3, '>', Gt);
    var a5, b5 := ReplaceAll(a4, "\"", Quot), ReplaceAll(b4, "\"", Quot);
    ReplaceAllConcat(a4, b4, '"', Quot);
    ReplaceAllConcat(a5, b5, '\'', Apos);
  }

  /** The chain on a single character is the reference escape. */
  lemma ChainChar(x: char)
    ensures EscapeCell([x]) == EscapeChar(x)
  {
    if x == '&' {
      ChainAmp();
    } else if x == '<' {
      ChainLt();
    } else if x == '>' {
      ChainGt();
    } else if x == '"' {
      ChainQuot();
    } else if x == '\'' {
      ChainApos();
    } else {
      ReplaceSingle(x, '\n', "\n");
      ReplaceSingle(x, '&', Amp);
      ReplaceSingle(x, '<', Lt);
      ReplaceSingle(x, '>', Gt);
      ReplaceSingle(x, '"', Quot);
      ReplaceSingle(x, '\'', Apos);
    }
  }

  /** `&` becomes its reference, which the later replaces leave alone. */
  lemma ChainAmp()
    ensures EscapeCell("&") == Amp
  {
    ReplaceSingle('&', '\n', "\n");
    ReplaceSingle('&', '&', Amp);
    ReplaceAllAbsent(Amp, '<', Lt);
    ReplaceAllAbsent(Amp, '>', Gt);
    ReplaceAllAbsent(Amp, '"', Quot);
    ReplaceAllAbsent(Amp, '\'', Apos);
  }

  lemma ChainLt()
    ensures EscapeCell("<") == Lt
  {
    ReplaceSingle('<', '\n', "\n");
    ReplaceSingle('<', '&', Amp);
    ReplaceSingle('<', '<', Lt);
    ReplaceAllAbsent(Lt, '>', Gt);
    ReplaceAllAbsent(Lt, '"', Quot);
    ReplaceAllAbsent(Lt, '\'', Apos);
  }

  lemma ChainGt()
    ensures EscapeCell(">") == Gt
  {
    ReplaceSingle('>', '\n', "\n");
    ReplaceSingle('>', '&', Amp);
    ReplaceSingle('>', '<', Lt);
    ReplaceSingle('>', '>', Gt);
    ReplaceAllAbsent(Gt, '"', Quot);
    ReplaceAllAbsent(Gt, '\'', Apos);
  }

  lemma ChainQuot()
    ensures EscapeCell("\"") == Quot
  {
    ReplaceSingle('"', '\n', "\n");
    ReplaceSingle('"', '&', Amp);
    ReplaceSingle('"', '<', Lt);
    ReplaceSingle('"', '>', Gt);
    ReplaceSingle('"', '"', Quot);
    ReplaceAllAbsent(Quot, '\'', Apos);
  }

  lemma ChainApos()
    ensures EscapeCell("'") == Apos
  {
    ReplaceSingle('\'', '\n', "\n");
    ReplaceSingle('\'', '&', Amp);
    ReplaceSingle('\'', '<', Lt);
    ReplaceSingle('\'', '>', Gt);
    ReplaceSingle('\'', '"', Quot);
    ReplaceSingle('\'', '\'', Apos);
  }

  /** Replacing `&` first makes the chain equal to escaping each character
      on its own: no reference produced by one step is altered by a later one. */
  lemma {:induction false} EscapeCellIsPerCharacter(s: string)
    ensures EscapeCell(s) == EscapeEach(s)
    decreases |s|
  {
    if s == [] {
      assert ReplaceAll(s, "\n", "\n") == [];
      assert ReplaceAll([], "&", Amp) == [];
      assert ReplaceAll([], "<", Lt) == [];
      assert ReplaceAll([], ">", Gt) == [];
      assert ReplaceAll([], "\"", Quot) == [];
      assert ReplaceAll([], "'", Apos) == [];
    } else {
      assert s == [s[0]] + s[1..];
      ChainConcat([s[0]], s[1..]);
      ChainChar(s[0]);
      EscapeCellIsPerCharacter(s[1..]);
    }
  }

  predicate IsMarkup(c: char)
  {
    c == '<' || c == '>' || c == '"' || c == '\''
  }

  /** `t` begins with one of the five references. */
  predicate StartsEntity(t: string)
  {
    Amp <= t || Lt <= t || Gt <= t || Quot <= t || Apos <= t
  }

  /** Every `&` in `r` begins a whole reference. */
  predicate AmpersandsStartEntities(r: string)
  {
    forall i :: 0 <= i < |r| && r[i] == '&' ==> StartsEntity(r[i..])
  }

  lemma {:induction false} EscapeEachSafe(s: string)
    ensures forall i :: 0 <= i < |EscapeEach(s)| ==> !IsMarkup(EscapeEach(s)[i])
    ensures AmpersandsStartEntities(EscapeEach(s))
    decreases |s|
  {
    if s != [] {
      EscapeEachSafe(s[1..]);
      var h := EscapeChar(s[0]);
      var t := EscapeEach(s[1..]);
      var r := h + t;
      assert EscapeEach(s) == r;
      EscapeCharSafe(s[0]);
      forall i | 0 <= i < |r|
        ensures !IsMarkup(r[i])
        ensures r[i] == '&' ==> StartsEntity(r[i..])
      {
        if i < |h| {
          assert r[i] == h[i];
          if r[i] == '&' {
            assert r[i..] == h + t;
            StartsEntityPrefix(h, t);
          }
        } else {
          var j := i - |h|;
          assert r[i] == t[j];
          assert r[i..] == t[j..];
        }
      }
    }
  }

  /** One escaped character holds no markup, and its only possible `&` is
      the first character, beginning a reference. */
  lemma EscapeCharSafe(x: char)
    ensures forall i :: 0 <= i < |EscapeChar(x)| ==> !IsMarkup(EscapeChar(x)[i])
    ensures forall i :: 0 < i < |EscapeChar(x)| ==> EscapeChar(x)[i] != '&'
    ensures EscapeChar(x)[0] == '&' ==> StartsEntity(EscapeChar(x))
  {
  }

  lemma StartsEntityPrefix(h: string, t: string)
    requires StartsEntity(h)
    ensures StartsEntity(h + t)
  {
    assert (h + t)[..|h|] == h;
  }

  /** An escaped string cell contains no raw `<`, `>`, `"` or `'`, and each
      `&` in it begins one of the five references. */
  lemma EscapeCellSafe(s: string)
    ensures forall i :: 0 <= i < |EscapeCell(s)| ==> !IsMarkup(EscapeCell(s)[i])
    ensures AmpersandsStartEntities(EscapeCell(s))
  {
    EscapeCellIsPerCharacter(s);
    EscapeEachSafe(s);
  }

  /** Decodes the five references the escape produces; the rest of what an
      HTML parser does to text (newline normalisation, NUL removal) is not
      modelled. */
  function Unescape(r: string): string
    decreases |r|
  {
    if r == [] then []
    else if Amp <= r then "&" + Unescape(r[|Amp|..])
    else if Lt <= r then "<" + Unescape(r[|Lt|..])
    else if Gt <= r then ">" + Unescape(r[|Gt|..])
    else if Quot <= r then "\"" + Unescape(r[|Quot|..])
    else if Apos <= r then "'" + Unescape(r[|Apos|..])
    else [r[0]] + Unescape(r[1..])
  }

  lemma UnescapeStep(x: char, t: string)
    ensures Unescape(EscapeChar(x) + t) == [x] + Unescape(t)
  {
    var h := EscapeChar(x);
    var r := h + t;
    assert r[..|h|] == h && r[|h|..] == t;
    if x == '&' {
    } else if x == '<' {
      assert r[1] == 'l';
    } else if x == '>' {
      assert r[1] == 'g';
    } else if x == '"' {
      assert r[1] == 'q';
    } else if x == '\'' {
      assert r[1] == '#';
    } else {
      assert r[0] == x;
    }
  }

  /** Decoding the five references in the escaped cell gives back the
      string. */
  lemma {:induction false} EscapeRoundTrip(s: string)
    ensures Unescape(EscapeCell(s)) == s
    decreases |s|
  {
    EscapeCellIsPerCharacter(s);
    if s != [] {
      EscapeRoundTrip(s[1..]);
      EscapeCellIsPerCharacter(s[1..]);
      UnescapeStep(s[0], EscapeEach(s[1..]));
      assert s == [s[0]] + s[1..];
    }
  }

  /** A result cell's value, as the row proxy yields it. */
  datatype CellValue =
    | Text(s: string)      // typeof value === 'string'
    | Null                 // value === null
    | Other(shown: string) // any other value, as String(value) renders it

  /** `cellContent`: the text placed between `<td>` and `</td>`. */
  function CellContent(v: CellValue): (r: string)
    ensures v.Null? ==> r == []
    ensures v.Text? ==> Unescape(r) == v.s
    ensures v.Text? ==> forall i :: 0 <= i < |r| ==> !IsMarkup(r[i])
  {
    match v
    case Text(s) =>
      EscapeRoundTrip(s);
      EscapeCellSafe(s);
      EscapeCell(s)
    case Null => []
    case Other(shown) => shown
  }
}
