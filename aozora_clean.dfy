/**
 * The Aozora Bunko text cleaner (tmp/aozora_data.py, `clean_text`): Unicode
 * normalisation, ruby removal, control-character filtering, annotation
 * removal, newline unification, blank-line and blank-run collapsing, and a
 * final strip. The Unicode tables are not modelled: NFKC normalisation is a
 * parameter `nfkc`, and `unicodedata.category(c)[0]` is a parameter
 * `majorCategory`.
 */
module AozoraClean {
  import opened Wrappers
  import opened Strings
  import opened AozoraRuby
  import opened SeqFacts

  /** The characters Python's `str.isspace` accepts; `\s` in a `str`
      pattern and `str.strip()` use the same set. */
  predicate IsPySpace(c: char)
  {
    ('\t' <= c <= '\r') || ('\U{1C}' <= c <= ' ') || c == '\U{85}' || c == '\U{A0}'
    || c == '\U{1680}' || ('\U{2000}' <= c <= '\U{200A}') || c == '\U{2028}'
    || c == '\U{2029}' || c == '\U{202F}' || c == '\U{205F}' || c == '\U{3000}'
  }

  // ---------------------------------------------------------------------
  // The steps

  /** The control characters the filter spares: as written only the
      newline. */
  const KeptAsWritten: set<char> := {'\n'}

  /** `''.join(c for c in s if c in keep or category(c)[0] != 'C')`; the
      source's `c == '\n'` is `keep == KeptAsWritten`. */
  function DropControls(s: string, keep: set<char>, majorCategory: char -> char): (r: string)
    ensures forall x :: x in r ==> x in s && (x in keep || majorCategory(x) != 'C')
    decreases |s|
  {
    if s == [] then []
    else if s[0] in keep || majorCategory(s[0]) != 'C' then [s[0]] + DropControls(s[1..], keep, majorCategory)
    else DropControls(s[1..], keep, majorCategory)
  }

  /** U+FF3B FULLWIDTH LEFT SQUARE BRACKET. */
  const AnnOpen: char := '\U{FF3B}'
  /** U+FF03 FULLWIDTH NUMBER SIGN. */
  const Sharp: char := '\U{FF03}'
  /** U+FF3D FULLWIDTH RIGHT SQUARE BRACKET. */
  const AnnClose: char := '\U{FF3D}'

  /** `re.sub(r'［＃[^］]*］', '', s)`: `［＃` and everything up to the first
      `］` after it are deleted; where no `］` follows, the `［` is kept and
      the scan moves on by one character. */
  function RemoveAnnotations(s: string): (r: string)
    ensures forall x :: x in r ==> x in s
    decreases |s|
  {
    if s == [] then []
    else if |s| >= 2 && s[0] == AnnOpen && s[1] == Sharp then
      var e := 2 + Find(s[2..], AnnClose);
      if e == |s| then [s[0]] + RemoveAnnotations(s[1..])
      else RemoveAnnotations(s[e + 1..])
    else [s[0]] + RemoveAnnotations(s[1..])
  }

  /** `s.replace('\r\n', '\n').replace('\r', '\n')`. */
  function UnifyNewlines(s: string): (r: string)
    ensures '\r' !in r
    ensures forall x :: x in r ==> x in s || x == '\n'
  {
    var t := ReplaceAll(s, "\r\n", "\n");
    ReplaceAllSubset(s, "\r\n", "\n");
    ReplaceAllChars(t, '\r', "\n");
    ReplaceAll(t, "\r", "\n")
  }

  /** The length of the white-space run at the start of `t`. */
  function SpaceRun(t: string): (k: nat)
    ensures k <= |t|
    ensures forall i :: 0 <= i < k ==> IsPySpace(t[i])
    ensures k < |t| ==> !IsPySpace(t[k])
    decreases |t|
  {
    if t != [] && IsPySpace(t[0]) then 1 + SpaceRun(t[1..]) else 0
  }

  /** The length of the longest prefix of `w` that ends in a newline, and 0
      when `w` holds none. */
  function LastNewlineEnd(w: string): (m: nat)
    ensures m <= |w|
    ensures m > 0 ==> w[m - 1] == '\n'
    ensures forall i :: m <= i < |w| ==> w[i] != '\n'
    decreases |w|
  {
    if w == [] then 0
    else if w[|w| - 1] == '\n' then |w|
    else LastNewlineEnd(w[..|w| - 1])
  }

  /** `re.sub(r'\n\s*\n', '\n\n', s)`. At a newline, `\s*` first takes the
      whole white-space run after it and then gives back characters until a
      newline follows, so a match ends at the last newline of that run; a
      run holding no newline gives no match here. */
  function CollapseBlankLines(s: string): (r: string)
    ensures forall x :: x in r ==> x in s || x == '\n'
    decreases |s|
  {
    if s == [] then []
    else if s[0] == '\n' && LastNewlineEnd(s[1..1 + SpaceRun(s[1..])]) > 0 then
      var m := LastNewlineEnd(s[1..1 + SpaceRun(s[1..])]);
      "\n\n" + CollapseBlankLines(s[1 + m..])
    else [s[0]] + CollapseBlankLines(s[1..])
  }

  predicate IsBlank(c: char) { c == ' ' || c == '\t' }

  /** The length of the run of spaces and tabs at the start of `s`. */
  function BlankRun(s: string): (k: nat)
    ensures k <= |s|
    ensures forall i :: 0 <= i < k ==> IsBlank(s[i])
    ensures k < |s| ==> !IsBlank(s[k])
    decreases |s|
  {
    if s != [] && IsBlank(s[0]) then 1 + BlankRun(s[1..]) else 0
  }

  /** No two adjacent spaces. */
  predicate NoDoubleSpace(r: string)
  {
    forall i :: 0 <= i < |r| - 1 && r[i] == ' ' ==> r[i + 1] != ' '
  }

  lemma ConsNoDoubleSpace(x: char, r: string)
    requires NoDoubleSpace(r)
    requires x == ' ' ==> r == [] || r[0] != ' '
    ensures NoDoubleSpace([x] + r)
  {
    var s := [x] + r;
    forall i | 0 <= i < |s| - 1 && s[i] == ' '
      ensures s[i + 1] != ' '
    {
      assert s[i + 1] == r[i];
      if i > 0 {
        assert s[i] == r[i - 1];
      }
    }
  }

  /** `re.sub(r'[ \t]+', ' ', s)`: every run of spaces and tabs becomes a
      single space. */
  function CollapseSpaces(s: string): (r: string)
    ensures forall x :: x in r ==> x in s || x == ' '
    ensures '\t' !in r
    ensures NoDoubleSpace(r)
    ensures s != [] ==> r != [] && (IsBlank(s[0]) ==> r[0] == ' ') && (!IsBlank(s[0]) ==> r[0] == s[0])
    decreases |s|
  {
    if s == [] then []
    else if IsBlank(s[0]) then
      var k := BlankRun(s);
      var t := CollapseSpaces(s[k..]);
      ConsNoDoubleSpace(' ', t);
      " " + t
    else
      var t := CollapseSpaces(s[1..]);
      ConsNoDoubleSpace(s[0], t);
      [s[0]] + t
  }

  /** Steps 5 to 8: newline unification, the two collapses and
      `str.strip()`. */
  function Whitespace(s: string): string
  {
    Trim(CollapseSpaces(CollapseBlankLines(UnifyNewlines(s))), IsPySpace)
  }

  /** `clean_text` as written: NFKC first, then ruby removal, the control
      filter, annotation removal and the white-space steps. `None` (a
      missing text) stays `None`. */
  function CleanText(text: Option<string>, nfkc: string -> string, majorCategory: char -> char): (r: Option<string>)
    ensures r.None? <==> text.None?
  {
    match text
    case None => None
    case Some(t) => Some(Whitespace(RemoveAnnotations(DropControls(RemoveRuby(nfkc(t)), KeptAsWritten, majorCategory))))
  }

  // ---------------------------------------------------------------------
  // What the cleaned text looks like

  lemma NoDoubleSpaceSlice(s: string, a: nat, b: nat)
    requires a <= b <= |s| && NoDoubleSpace(s)
    ensures NoDoubleSpace(s[a..b])
  {
    var t := s[a..b];
    forall i | 0 <= i < |t| - 1 && t[i] == ' '
      ensures t[i + 1] != ' '
    {
      assert t[i] == s[a + i] && t[i + 1] == s[a + i + 1];
    }
  }

  /** No white space (in the sense of `str.isspace`) at either end. */
  predicate Stripped(r: string)
  {
    r == [] || (!IsPySpace(r[0]) && !IsPySpace(r[|r| - 1]))
  }

  /** `strip()` leaves no white space at either end, adds no character,
      and keeps the absence of tabs, carriage returns and double spaces. */
  lemma StripShape(t: string)
    requires '\t' !in t && '\r' !in t && NoDoubleSpace(t)
    ensures var r := Trim(t, IsPySpace);
      && Stripped(r)
      && '\t' !in r && '\r' !in r
      && NoDoubleSpace(r)
      && forall x :: x in r ==> x in t
  {
    var u := TrimStart(t, IsPySpace);
    var r := TrimEnd(u, IsPySpace);
    assert Trim(t, IsPySpace) == r;
    NoDoubleSpaceSlice(t, |t| - |u|, |t|);
    NoDoubleSpaceSlice(u, 0, |r|);
    assert forall x :: x in r ==> x in u;
    assert forall x :: x in u ==> x in t;
  }

  /** The white-space steps leave no white space at either end, no tab, no
      carriage return and no two adjacent spaces, and add no character
      other than a newline or a space. */
  lemma WhitespaceShape(s: string)
    ensures var r := Whitespace(s);
      && Stripped(r)
      && '\t' !in r && '\r' !in r
      && NoDoubleSpace(r)
      && forall x :: x in r ==> x in s || x == '\n' || x == ' '
  {
    var v := UnifyNewlines(s);
    var w := CollapseBlankLines(v);
    var t := CollapseSpaces(w);
    assert '\r' !in w;
    assert '\r' !in t;
    StripShape(t);
  }

  /** The properties the cleaned text has whatever the input: no white
      space at either end, no tab, no carriage return, no two adjacent
      spaces, and no character of the control categories except newlines. */
  lemma CleanTextShape(t: string, nfkc: string -> string, majorCategory: char -> char)
    ensures var r := CleanText(Some(t), nfkc, majorCategory).value;
      && Stripped(r)
      && '\t' !in r && '\r' !in r
      && NoDoubleSpace(r)
      && forall x :: x in r && x != '\n' && x != ' ' ==> majorCategory(x) != 'C'
  {
    var d := DropControls(RemoveRuby(nfkc(t)), KeptAsWritten, majorCategory);
    var a := RemoveAnnotations(d);
    WhitespaceShape(a);
    var r := Whitespace(a);
    assert CleanText(Some(t), nfkc, majorCategory).value == r;
    assert forall x :: x in r && x != '\n' && x != ' ' ==> x in d;
  }

  /** Given the table fact that a space is not a control character, no
      control character but the newline survives. */
  lemma CleanTextKeepsNoControls(t: string, nfkc: string -> string, majorCategory: char -> char)
    requires majorCategory(' ') != 'C'
    ensures forall x :: x in CleanText(Some(t), nfkc, majorCategory).value && x != '\n'
                        ==> majorCategory(x) != 'C'
  {
    CleanTextShape(t, nfkc, majorCategory);
  }

  // ---------------------------------------------------------------------
  // Partners of the individual steps

  /** A whole annotation `［＃...］` disappears, and the scan carries on after
      it. */
  lemma AnnotationRemoved(a: string, rest: string)
    requires AnnClose !in a
    ensures RemoveAnnotations([AnnOpen, Sharp] + a + [AnnClose] + rest) == RemoveAnnotations(rest)
  {
    var s := [AnnOpen, Sharp] + a + [AnnClose] + rest;
    assert s[2..] == a + [AnnClose] + rest;
    FindAfter(a, AnnClose, rest);
    assert s[|a| + 3..] == rest;
  }

  /** Blank lines between two lines become one empty line: a newline, then
      white space holding a newline, then a non-space character. */
  lemma BlankLinesCollapsed(w: string, rest: string)
    requires forall i :: 0 <= i < |w| ==> IsPySpace(w[i])
    requires rest == [] || !IsPySpace(rest[0])
    ensures CollapseBlankLines("\n" + w + "\n" + rest) == "\n\n" + CollapseBlankLines(rest)
  {
    var run := w + "\n";
    BlankLinesParts(w, rest);
    assert LastNewlineEnd(run) == |run|;
  }

  lemma BlankLinesParts(w: string, rest: string)
    requires forall i :: 0 <= i < |w| ==> IsPySpace(w[i])
    requires rest == [] || !IsPySpace(rest[0])
    ensures var s := "\n" + w + "\n" + rest;
      && s[0] == '\n'
      && SpaceRun(s[1..]) == |w| + 1
      && s[1..|w| + 2] == w + "\n"
      && s[|w| + 2..] == rest
  {
    var s := "\n" + w + "\n" + rest;
    assert s[1..] == (w + "\n") + rest;
    WhiteRunLength(w + "\n", rest);
  }

  /** The white-space run at the start of `v + rest` is `v` when `rest` does
      not start with white space. */
  lemma WhiteRunLength(v: string, rest: string)
    requires forall i :: 0 <= i < |v| - 1 ==> IsPySpace(v[i])
    requires v != [] && IsPySpace(v[|v| - 1])
    requires rest == [] || !IsPySpace(rest[0])
    ensures SpaceRun(v + rest) == |v|
  {
    var t := v + rest;
    assert forall i :: 0 <= i < |v| ==> t[i] == v[i];
    assert |v| < |t| ==> t[|v|] == rest[0];
  }

  /** A run of spaces and tabs between two other characters becomes one
      space. */
  lemma BlankRunCollapsed(b: string, rest: string)
    requires b != [] && forall i :: 0 <= i < |b| ==> IsBlank(b[i])
    requires rest == [] || !IsBlank(rest[0])
    ensures CollapseSpaces(b + rest) == " " + CollapseSpaces(rest)
  {
    var s := b + rest;
    assert forall i :: 0 <= i < |b| ==> s[i] == b[i];
    assert |b| < |s| ==> s[|b|] == rest[0];
    assert BlankRun(s) == |b|;
    assert s[|b|..] == rest;
  }

  // ---------------------------------------------------------------------
  // Text the cleaner leaves as NFKC gives it

  lemma {:induction false} DropControlsKeeps(s: string, keep: set<char>, majorCategory: char -> char)
    requires forall x :: x in s ==> x in keep || majorCategory(x) != 'C'
    ensures DropControls(s, keep, majorCategory) == s
    decreases |s|
  {
    if s != [] {
      assert s[0] in s;
      assert forall x :: x in s[1..] ==> x in s;
      DropControlsKeeps(s[1..], keep, majorCategory);
      assert s == [s[0]] + s[1..];
    }
  }

  lemma {:induction false} RemoveAnnotationsAbsent(s: string)
    requires AnnOpen !in s
    ensures RemoveAnnotations(s) == s
    decreases |s|
  {
    if s != [] {
      RemoveAnnotationsAbsent(s[1..]);
      assert s == [s[0]] + s[1..];
    }
  }

  lemma {:induction false} CollapseBlankLinesAbsent(s: string)
    requires '\n' !in s
    ensures CollapseBlankLines(s) == s
    decreases |s|
  {
    if s != [] {
      CollapseBlankLinesAbsent(s[1..]);
      assert s == [s[0]] + s[1..];
    }
  }

  lemma {:induction false} CollapseSpacesAbsent(s: string)
    requires forall i :: 0 <= i < |s| ==> !IsBlank(s[i])
    ensures CollapseSpaces(s) == s
    decreases |s|
  {
    if s != [] {
      CollapseSpacesAbsent(s[1..]);
      assert s == [s[0]] + s[1..];
    }
  }

  /** The white-space steps keep a text that holds no white space. */
  lemma WhitespaceKeeps(p: string)
    requires forall i :: 0 <= i < |p| ==> !IsPySpace(p[i])
    ensures Whitespace(p) == p
  {
    assert '\r' !in p && '\n' !in p;
    assert p + [] == p;
    ReplaceAllSkip(p, [], "\r\n", "\n");
    ReplaceAllAbsent(p, '\r', "\n");
    CollapseBlankLinesAbsent(p);
    CollapseSpacesAbsent(p);
  }

  /** Every character is neither white space nor a control character. */
  predicate Plain(p: string, majorCategory: char -> char)
  {
    forall i :: 0 <= i < |p| ==> !IsPySpace(p[i]) && majorCategory(p[i]) != 'C'
  }

  /** Steps 3 to 8 keep a text of non-control, non-space characters that
      holds no fullwidth `［`. */
  lemma LaterStepsKeep(p: string, majorCategory: char -> char)
    requires Plain(p, majorCategory)
    requires AnnOpen !in p
    ensures Whitespace(RemoveAnnotations(DropControls(p, KeptAsWritten, majorCategory))) == p
  {
    DropControlsKeeps(p, KeptAsWritten, majorCategory);
    RemoveAnnotationsAbsent(p);
    WhitespaceKeeps(p);
  }

  // ---------------------------------------------------------------------
  // Normalising first defeats the ruby and annotation steps

  /** As written, an annotation survives: NFKC turns `［＃…］` into the
      ASCII `[#…]` before the annotation pattern is tried, so `［＃注］`
      cleans to `[#注]`. The hypotheses are the Unicode table entries
      involved: the body is left alone by NFKC and the brackets and sign
      are punctuation. */
  lemma AnnotationSurvivesAsWritten(a: string, nfkc: string -> string, majorCategory: char -> char)
    requires Plain(a, majorCategory) && Bar !in a && Open !in a && AnnOpen !in a
    requires majorCategory('[') == 'P' && majorCategory('#') == 'P' && majorCategory(']') == 'P'
    requires nfkc([AnnOpen, Sharp] + a + [AnnClose]) == "[#" + a + "]"
    ensures CleanText(Some([AnnOpen, Sharp] + a + [AnnClose]), nfkc, majorCategory) == Some("[#" + a + "]")
  {
    var p := "[#" + a + "]";
    assert Bar !in p && Open !in p && AnnOpen !in p;
    RemoveRubyPlain(p);
    PlainConcat("[#", a, majorCategory);
    PlainConcat("[#" + a, "]", majorCategory);
    LaterStepsKeep(p, majorCategory);
  }

  /** As written, a ruby base marker survives: NFKC turns `｜` into the
      ASCII `|`, so `｜漢字《かんじ》` loses its reading but keeps a `|`. */
  lemma RubyMarkerSurvivesAsWritten(b: string, rd: string, nfkc: string -> string, majorCategory: char -> char)
    requires Plain(b, majorCategory) && Bar !in b && Open !in b && AnnOpen !in b
    requires Bar !in rd && Close !in rd
    requires majorCategory('|') == 'S'
    requires nfkc([Bar] + b + [Open] + rd + [Close]) == "|" + b + [Open] + rd + [Close]
    ensures CleanText(Some([Bar] + b + [Open] + rd + [Close]), nfkc, majorCategory) == Some("|" + b)
  {
    var base := "|" + b;
    var x := [Open] + rd + [Close];
    var s := base + x;
    assert "|" + b + [Open] + rd + [Close] == s;
    assert Bar !in s;
    SubRubyAbsent(s);
    DropReadingsSkip(base, x);
    ReadingDropped(rd, []);
    assert x + [] == x;
    assert base + [] == base;
    ReplaceAllAbsent(base, Bar, "");
    BarPlain(majorCategory);
    PlainConcat("|", b, majorCategory);
    LaterStepsKeep(base, majorCategory);
  }

  lemma BarPlain(majorCategory: char -> char)
    requires majorCategory('|') == 'S'
    ensures Plain("|", majorCategory)
  {
  }

  lemma PlainConcat(x: string, y: string, majorCategory: char -> char)
    requires Plain(x, majorCategory) && Plain(y, majorCategory)
    ensures Plain(x + y, majorCategory)
  {
    assert forall i :: |x| <= i < |x + y| ==> (x + y)[i] == y[i - |x|];
  }

  /** The control characters the corrected filter spares: the newline, and
      the tab and carriage return that the white-space steps normalise. */
  const KeptCorrected: set<char> := {'\n', '\t', '\r'}

  /** The evidently intended cleaner: ruby and annotation markup is removed
      while it is still in its fullwidth form, NFKC comes after, and the
      control filter spares the tab and carriage return. */
  function CleanTextCorrected(text: Option<string>, nfkc: string -> string, majorCategory: char -> char): (r: Option<string>)
    ensures r.None? <==> text.None?
  {
    match text
    case None => None
    case Some(t) => Some(Whitespace(DropControls(nfkc(RemoveAnnotations(RemoveRuby(t))), KeptCorrected, majorCategory)))
  }

  /** With the corrected order an annotation cleans to nothing... */
  lemma CorrectedRemovesAnnotation(a: string, nfkc: string -> string, majorCategory: char -> char)
    requires AnnClose !in a && Bar !in a && Open !in a
    requires nfkc([]) == []
    ensures CleanTextCorrected(Some([AnnOpen, Sharp] + a + [AnnClose]), nfkc, majorCategory) == Some([])
  {
    var s := [AnnOpen, Sharp] + a + [AnnClose];
    assert Bar !in s && Open !in s;
    RemoveRubyPlain(s);
    assert s == s + [];
    AnnotationRemoved(a, []);
    assert UnifyNewlines([]) == [] by {
      ReplaceAllSkip([], [], "\r\n", "\n");
      ReplaceAllSkip([], [], "\r", "\n");
    }
  }

  /** ...and a marked ruby group cleans exactly as its base alone would. */
  lemma CorrectedRemovesRuby(b: string, rd: string, nfkc: string -> string, majorCategory: char -> char)
    requires Open !in b && Bar !in b && AnnOpen !in b && Close !in rd
    ensures CleanTextCorrected(Some([Bar] + b + [Open] + rd + [Close]), nfkc, majorCategory)
         == CleanTextCorrected(Some(b), nfkc, majorCategory)
  {
    RemoveRubyGroup(b, rd);
    RemoveRubyPlain(b);
  }

  /** The corrected cleaner keeps every guarantee of the original. */
  lemma CorrectedShape(t: string, nfkc: string -> string, majorCategory: char -> char)
    ensures var r := CleanTextCorrected(Some(t), nfkc, majorCategory).value;
      && Stripped(r)
      && '\t' !in r && '\r' !in r
      && NoDoubleSpace(r)
      && forall x :: x in r && x != '\n' && x != ' ' ==> majorCategory(x) != 'C'
  {
    var d := DropControls(nfkc(RemoveAnnotations(RemoveRuby(t))), KeptCorrected, majorCategory);
    WhitespaceShape(d);
    var r := Whitespace(d);
    assert CleanTextCorrected(Some(t), nfkc, majorCategory).value == r;
    assert forall x :: x in r && x != '\n' && x != ' ' ==> x in d;
  }

  // ---------------------------------------------------------------------
  // Filtering controls first defeats the tab normalisation

  /** A kept prefix passes the control filter unchanged. */
  lemma {:induction false} DropControlsSkip(p: string, y: string, keep: set<char>, majorCategory: char -> char)
    requires forall i :: 0 <= i < |p| ==> p[i] in keep || majorCategory(p[i]) != 'C'
    ensures DropControls(p + y, keep, majorCategory) == p + DropControls(y, keep, majorCategory)
    decreases |p|
  {
    if p == [] {
      assert p + y == y;
    } else {
      var c, t := p[0], p[1..];
      assert p + y == [c] + (t + y) && p == [c] + t;
      assert forall i :: 0 <= i < |t| ==> t[i] == p[i + 1];
      DropControlsCons(c, t + y, keep, majorCategory);
      DropControlsSkip(t, y, keep, majorCategory);
      AppendAssoc([c], t, DropControls(y, keep, majorCategory));
    }
  }

  /** A kept character is copied and the filter goes on with the rest. */
  lemma DropControlsCons(c: char, t: string, keep: set<char>, majorCategory: char -> char)
    requires c in keep || majorCategory(c) != 'C'
    ensures DropControls([c] + t, keep, majorCategory) == [c] + DropControls(t, keep, majorCategory)
  {
    assert ([c] + t)[1..] == t;
  }

  /** The control filter as written drops a tab between two kept texts. */
  lemma TabFiltered(a: string, b: string, majorCategory: char -> char)
    requires Plain(a, majorCategory) && Plain(b, majorCategory)
    requires majorCategory('\t') == 'C'
    ensures DropControls(a + "\t" + b, KeptAsWritten, majorCategory) == a + b
  {
    var y := "\t" + b;
    assert a + "\t" + b == a + y;
    DropControlsSkip(a, y, KeptAsWritten, majorCategory);
    assert y[0] == '\t' && y[1..] == b;
    assert DropControls(y, KeptAsWritten, majorCategory) == DropControls(b, KeptAsWritten, majorCategory);
    DropControlsSkip(b, [], KeptAsWritten, majorCategory);
    assert b + [] == b;
  }

  /** As written, a tab between two words is deleted: the tab is a control
      character (category Cc), so the filter drops it before `[ \t]+` could
      turn it into a space, and `a\tb` cleans to `ab`. */
  lemma TabDroppedAsWritten(a: string, b: string, nfkc: string -> string, majorCategory: char -> char)
    requires Plain(a, majorCategory) && Bar !in a && Open !in a && AnnOpen !in a
    requires Plain(b, majorCategory) && Bar !in b && Open !in b && AnnOpen !in b
    requires majorCategory('\t') == 'C'
    requires nfkc(a + "\t" + b) == a + "\t" + b
    ensures CleanText(Some(a + "\t" + b), nfkc, majorCategory) == Some(a + b)
  {
    var s := a + "\t" + b;
    NoMarkup(a, b);
    RemoveRubyPlain(s);
    TabFiltered(a, b, majorCategory);
    PlainConcat(a, b, majorCategory);
    RemoveAnnotationsAbsent(a + b);
    WhitespaceKeeps(a + b);
  }

  /** Gluing two texts without ruby or annotation marks around a tab adds
      none. */
  lemma NoMarkup(a: string, b: string)
    requires Bar !in a && Open !in a && AnnOpen !in a
    requires Bar !in b && Open !in b && AnnOpen !in b
    ensures var s := a + "\t" + b; Bar !in s && Open !in s && AnnOpen !in s
  {
  }

  /** With the corrected filter the tab survives to the blank collapse and
      `a\tb` cleans to `a b`. */
  lemma CorrectedKeepsTab(a: string, b: string, nfkc: string -> string, majorCategory: char -> char)
    requires a != [] && Plain(a, majorCategory) && Bar !in a && Open !in a && AnnOpen !in a
    requires b != [] && Plain(b, majorCategory) && Bar !in b && Open !in b && AnnOpen !in b
    requires nfkc(a + "\t" + b) == a + "\t" + b
    ensures CleanTextCorrected(Some(a + "\t" + b), nfkc, majorCategory) == Some(a + " " + b)
  {
    var s := a + "\t" + b;
    NoMarkup(a, b);
    RemoveRubyPlain(s);
    RemoveAnnotationsAbsent(s);
    TabKept(a, b, majorCategory);
    TabCollapsed(a, b);
  }

  /** The corrected filter keeps a tab between two kept texts. */
  lemma TabKept(a: string, b: string, majorCategory: char -> char)
    requires Plain(a, majorCategory) && Plain(b, majorCategory)
    ensures DropControls(a + "\t" + b, KeptCorrected, majorCategory) == a + "\t" + b
  {
    var y := "\t" + b;
    assert a + "\t" + b == a + y;
    DropControlsSkip(a, y, KeptCorrected, majorCategory);
    DropControlsSkip(y, [], KeptCorrected, majorCategory);
    assert y + [] == y;
  }

  /** The white-space steps turn the tab between two words into a space. */
  lemma TabCollapsed(a: string, b: string)
    requires a != [] && forall i :: 0 <= i < |a| ==> !IsPySpace(a[i])
    requires b != [] && forall i :: 0 <= i < |b| ==> !IsPySpace(b[i])
    ensures Whitespace(a + "\t" + b) == a + " " + b
  {
    var s := a + "\t" + b;
    TabNoNewline(a, b);
    assert UnifyNewlines(s) == s;
    CollapseBlankLinesAbsent(s);
    TabBlankCollapse(a, b);
    StripKeeps(a + " " + b);
  }

  lemma TabNoNewline(a: string, b: string)
    requires forall i :: 0 <= i < |a| ==> !IsPySpace(a[i])
    requires forall i :: 0 <= i < |b| ==> !IsPySpace(b[i])
    ensures UnifyNewlines(a + "\t" + b) == a + "\t" + b
    ensures '\n' !in a + "\t" + b
  {
    var s := a + "\t" + b;
    assert '\r' !in s && '\n' !in s;
    assert s + [] == s;
    ReplaceAllSkip(s, [], "\r\n", "\n");
    ReplaceAllAbsent(s, '\r', "\n");
  }

  lemma {:induction false} TabBlankCollapse(a: string, b: string)
    requires b != [] && forall i :: 0 <= i < |a| ==> !IsBlank(a[i])
    requires forall i :: 0 <= i < |b| ==> !IsBlank(b[i])
    ensures CollapseSpaces(a + "\t" + b) == a + " " + b
    decreases |a|
  {
    if a == [] {
      assert a + "\t" + b == "\t" + b && a + " " + b == " " + b;
      TabRunCollapsed(b);
    } else {
      var c, t := a[0], a[1..];
      assert a + "\t" + b == [c] + (t + "\t" + b);
      assert a + " " + b == [c] + (t + " " + b);
      assert forall i :: 0 <= i < |t| ==> t[i] == a[i + 1];
      CollapseSpacesCons(c, t + "\t" + b);
      TabBlankCollapse(t, b);
    }
  }

  /** A character other than a space or tab is copied by the blank
      collapse. */
  lemma CollapseSpacesCons(c: char, t: string)
    requires !IsBlank(c)
    ensures CollapseSpaces([c] + t) == [c] + CollapseSpaces(t)
  {
    assert ([c] + t)[1..] == t;
  }

  lemma TabRunCollapsed(b: string)
    requires b != [] && forall i :: 0 <= i < |b| ==> !IsBlank(b[i])
    ensures CollapseSpaces("\t" + b) == " " + b
  {
    BlankRunCollapsed("\t", b);
    CollapseSpacesAbsent(b);
  }

  /** `strip()` keeps a text that starts and ends with non-space. */
  lemma StripKeeps(r: string)
    requires r != [] && !IsPySpace(r[0]) && !IsPySpace(r[|r| - 1])
    ensures Trim(r, IsPySpace) == r
  {
    assert TrimStart(r, IsPySpace) == r;
  }
}
