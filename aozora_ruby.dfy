/**
 * Ruby removal in the Aozora Bunko text cleaner (tmp/aozora_data.py,
 * `remove_ruby`). Aozora Bunko marks a reading as `｜base《reading》`; the
 * cleaner applies three substitutions in turn: a marked group becomes its
 * base, any remaining `《...》` reading is deleted, and every leftover `｜`
 * is dropped. Each regular-expression substitution is modelled as the
 * left-to-right, non-overlapping scan Python's `re.sub` performs.
 */
module AozoraRuby {
  import opened Strings

  /** U+FF5C FULLWIDTH VERTICAL LINE, the base marker. */
  const Bar: char := '\U{FF5C}'
  /** U+300A LEFT DOUBLE ANGLE BRACKET, which opens a reading. */
  const Open: char := '\U{300A}'
  /** U+300B RIGHT DOUBLE ANGLE BRACKET, which closes a reading. */
  const Close: char := '\U{300B}'

  /** `re.sub(r'｜([^《]*)《[^》]*》', r'\1', s)`. At a `｜` the base runs up
      to the first `《` after it and the reading up to the first `》` after
      that; when either is missing there is no match at this `｜`, which is
      copied, and the scan resumes at the next character. After a match the
      scan resumes after its `》`. */
  function SubRubyWithBase(s: string): string
    decreases |s|
  {
    if s == [] then [] else RubyStep(s).0 + SubRubyWithBase(s[RubyStep(s).1..])
  }

  /** One step of that scan at `s[0]`: the text it emits and how many
      characters it consumes. */
  function RubyStep(s: string): (r: (string, nat))
    requires s != []
    ensures 0 < r.1 <= |s|
  {
    var q := 1 + Find(s[1..], Open);
    var e := if q < |s| then q + 1 + Find(s[q + 1..], Close) else |s|;
    if s[0] == Bar && e < |s| then (s[1..q], e + 1) else ([s[0]], 1)
  }

  /** `re.sub(r'《[^》]*》', '', s)`: a `《` and everything up to the first
      `》` after it are deleted; a `《` with no `》` after it is kept. */
  function DropReadings(s: string): (r: string)
    ensures forall x :: x in r ==> x in s
    decreases |s|
  {
    if s == [] then []
    else if s[0] != Open then [s[0]] + DropReadings(s[1..])
    else
      var e := 1 + Find(s[1..], Close);
      if e == |s| then [s[0]] + DropReadings(s[1..])
      else DropReadings(s[e + 1..])
  }

  /** `remove_ruby`: the three steps in the source's order, the last being
      `str.replace('｜', '')`. */
  function RemoveRuby(s: string): string
  {
    ReplaceAll(DropReadings(SubRubyWithBase(s)), [Bar], "")
  }

  /** No `《` is followed, anywhere later, by a `》`. */
  predicate NoReadingGroup(r: string)
  {
    forall i, j :: 0 <= i < j < |r| && r[i] == Open ==> r[j] != Close
  }

  lemma ConsNoGroup(x: char, r: string)
    requires NoReadingGroup(r)
    requires x == Open ==> Close !in r
    ensures NoReadingGroup([x] + r)
  {
    var s := [x] + r;
    forall i, j | 0 <= i < j < |s| && s[i] == Open
      ensures s[j] != Close
    {
      assert s[j] == r[j - 1];
      if i > 0 {
        assert s[i] == r[i - 1];
      }
    }
  }

  /** After the second substitution no complete `《...》` reading is left. */
  lemma {:induction false} DropReadingsNoGroup(s: string)
    ensures NoReadingGroup(DropReadings(s))
    decreases |s|
  {
    if s != [] {
      if s[0] != Open {
        DropReadingsNoGroup(s[1..]);
        ConsNoGroup(s[0], DropReadings(s[1..]));
      } else {
        var e := 1 + Find(s[1..], Close);
        if e == |s| {
          DropReadingsNoGroup(s[1..]);
          assert Close !in s[1..];
          ConsNoGroup(s[0], DropReadings(s[1..]));
        } else {
          DropReadingsNoGroup(s[e + 1..]);
        }
      }
    }
  }

  /** Deleting every occurrence of one character keeps the property. */
  lemma {:induction false} DeleteKeepsNoGroup(s: string, c: char)
    requires NoReadingGroup(s)
    ensures NoReadingGroup(ReplaceAll(s, [c], ""))
    decreases |s|
  {
    if s != [] {
      var t := s[1..];
      assert s == [s[0]] + t;
      ReplaceAllCons(s[0], t, c, "");
      assert forall i, j :: 0 <= i < j < |t| && t[i] == Open ==> s[i + 1] == Open && t[j] == s[j + 1];
      DeleteKeepsNoGroup(t, c);
      var u := ReplaceAll(t, [c], "");
      if s[0] == c {
        assert "" + u == u;
      } else {
        if s[0] == Open {
          ReplaceAllChars(t, c, "");
          assert forall j :: 0 <= j < |t| ==> t[j] == s[j + 1];
        }
        ConsNoGroup(s[0], u);
      }
    }
  }

  /** The cleaned text holds no `｜` and no complete `《...》` reading. */
  lemma RemoveRubyClean(s: string)
    ensures Bar !in RemoveRuby(s)
    ensures NoReadingGroup(RemoveRuby(s))
  {
    var d := DropReadings(SubRubyWithBase(s));
    ReplaceAllChars(d, Bar, "");
    DropReadingsNoGroup(SubRubyWithBase(s));
    DeleteKeepsNoGroup(d, Bar);
  }

  /** A marked group `｜base《reading》` is replaced by its base, and the
      scan carries on after it. */
  lemma RubyGroup(b: string, rd: string, rest: string)
    requires Open !in b && Close !in rd
    ensures SubRubyWithBase([Bar] + b + [Open] + rd + [Close] + rest) == b + SubRubyWithBase(rest)
  {
    var s := [Bar] + b + [Open] + rd + [Close] + rest;
    var q := 1 + |b|;
    var e := q + 1 + |rd|;
    assert s[1..] == b + [Open] + (rd + [Close] + rest);
    FindAfter(b, Open, rd + [Close] + rest);
    assert s[q + 1..] == rd + [Close] + rest;
    FindAfter(rd, Close, rest);
    SubRubyMatch(s, q, e);
    assert s[1..q] == b;
    assert s[e + 1..] == rest;
  }

  /** At a `｜` whose base and reading are both closed, the group becomes
      its base and the scan resumes after the `》`. */
  lemma {:induction false} SubRubyMatch(s: string, q: nat, e: nat)
    requires 0 < q < e < |s| && s[0] == Bar
    requires q == 1 + Find(s[1..], Open) && e == q + 1 + Find(s[q + 1..], Close)
    ensures SubRubyWithBase(s) == s[1..q] + SubRubyWithBase(s[e + 1..])
  {
    RubyStepMatch(s, q, e);
    SubRubyUnfold(s);
    var k := RubyStep(s).1;
    assert k == e + 1;
    var t := s[k..];
    assert t == s[e + 1..];
    assert RubyStep(s).0 == s[1..q];
    assert SubRubyWithBase(s) == s[1..q] + SubRubyWithBase(t);
  }

  lemma {:induction false} RubyStepMatch(s: string, q: nat, e: nat)
    requires 0 < q < e < |s| && s[0] == Bar
    requires q == 1 + Find(s[1..], Open) && e == q + 1 + Find(s[q + 1..], Close)
    ensures RubyStep(s) == (s[1..q], e + 1)
  {
  }

  lemma {:induction false} SubRubyUnfold(s: string)
    requires s != []
    ensures SubRubyWithBase(s) == RubyStep(s).0 + SubRubyWithBase(s[RubyStep(s).1..])
  {
  }

  /** A leftover reading `《...》` is deleted, and the scan carries on
      after it. */
  lemma ReadingDropped(rd: string, rest: string)
    requires Close !in rd
    ensures DropReadings([Open] + rd + [Close] + rest) == DropReadings(rest)
  {
    var s := [Open] + rd + [Close] + rest;
    assert s[1..] == rd + [Close] + rest;
    FindAfter(rd, Close, rest);
    assert s[|rd| + 2..] == rest;
  }

  /** Text holding no `《` is copied by the second substitution. */
  lemma {:induction false} DropReadingsSkip(b: string, x: string)
    requires Open !in b
    ensures DropReadings(b + x) == b + DropReadings(x)
    decreases |b|
  {
    if b == [] {
      assert b + x == x;
    } else {
      var z := b + x;
      assert z[0] == b[0] != Open;
      assert z[1..] == b[1..] + x;
      assert DropReadings(z) == [b[0]] + DropReadings(b[1..] + x);
      DropReadingsSkip(b[1..], x);
      assert b == [b[0]] + b[1..];
    }
  }

  lemma {:induction false} SubRubyAbsent(s: string)
    requires Bar !in s
    ensures SubRubyWithBase(s) == s
    decreases |s|
  {
    if s != [] {
      SubRubyAbsent(s[1..]);
      assert s == [s[0]] + s[1..];
    }
  }

  /** Text with no `｜` and no `《` comes back unchanged. */
  lemma RemoveRubyPlain(s: string)
    requires Bar !in s && Open !in s
    ensures RemoveRuby(s) == s
  {
    SubRubyAbsent(s);
    DropReadingsSkip(s, []);
    assert s + [] == s;
    ReplaceAllAbsent(s, Bar, "");
  }

  /** A whole marked group comes out as its base. */
  lemma RemoveRubyGroup(b: string, rd: string)
    requires Open !in b && Bar !in b && Close !in rd
    ensures RemoveRuby([Bar] + b + [Open] + rd + [Close]) == b
  {
    var s := [Bar] + b + [Open] + rd + [Close];
    assert s == s + [];
    RubyGroup(b, rd, []);
    assert b + [] == b;
    DropReadingsSkip(b, []);
    ReplaceAllAbsent(b, Bar, "");
  }

  /** The docstring's example: `｜漢字《かんじ》` becomes `漢字`. */
  lemma RemoveRubyExample()
    ensures RemoveRuby([Bar] + "漢字" + [Open] + "かんじ" + [Close]) == "漢字"
  {
    RemoveRubyGroup("漢字", "かんじ");
  }
}
