/**
 * The text normalisers of the product scraper: fabric-composition parsing, fit-type
 * detection, the row and cell logic of the size-chart table over already extracted
 * strings, and the choice of a fallback size chart. The literals with garbled Turkish
 * letters are kept exactly as the scraper spells them.
 */
module IngestBeymen {
  import opened Wrappers
  import opened Text
  import Dicts
  import opened Schemas

  // === Fabric composition ===

  /** Fiber names, Turkish and English, and the fiber each stands for, in table order. */
  const FabricMapping: seq<(string, string)> := [
    ("pamuk", "cotton"),
    ("cotton", "cotton"),
    ("elastan", "elastane"),
    ("elastane", "elastane"),
    ("polyester", "polyester"),
    ("viskon", "viscose"),
    ("viscose", "viscose"),
    ("keten", "linen"),
    ("linen", "linen"),
    ("y√ºn", "wool"),
    ("wool", "wool"),
    ("ipek", "silk"),
    ("silk", "silk"),
    ("naylon", "nylon"),
    ("nylon", "nylon"),
    ("likra", "lycra"),
    ("lycra", "lycra"),
    ("spandex", "spandex")
  ]

  /** The fibers the parser can report. */
  const FiberNames: seq<string> := ["cotton", "elastane", "polyester", "viscose", "linen", "wool", "silk", "nylon", "lycra", "spandex"]

  /**
   * A letter of the pattern's fiber-name class: the ASCII letters, the extra characters
   * the class lists, and the upper-case forms that case-insensitive matching adds.
   */
  predicate FiberLetter(c: char) {
    IsAsciiLetter(c) || c in "ƒ±ü√º≈∂ßûúñá∞" || c in "ƑÜÛÚÑÁẞ"
  }

  /** The longest prefix of `s` whose characters all satisfy `p`. */
  function Span(s: string, p: char -> bool): (r: string)
    ensures |r| <= |s| && r == s[..|r|]
    ensures forall i :: 0 <= i < |r| ==> p(r[i])
    ensures |r| < |s| ==> !p(s[|r|])
  {
    if s == [] || !p(s[0]) then [] else [s[0]] + Span(s[1..], p)
  }

  /** `s` without its leading whitespace. */
  function DropSpaces(s: string): (r: string)
    ensures |r| <= |s|
  {
    s[|Span(s, IsSpace)|..]
  }

  predicate AllDigits(s: string) {
    forall i :: 0 <= i < |s| ==> IsDigit(s[i])
  }

  /** One match of the pattern: a run of digits and a fiber word. */
  predicate IsMatch(m: (string, string)) {
    m.0 != [] && AllDigits(m.0) && m.1 != [] && forall i :: 0 <= i < |m.1| ==> FiberLetter(m.1[i])
  }

  /**
   * What the pattern needs after its digit run: optional spaces, an optional "%",
   * optional spaces and at least one letter. The result is the letters and what follows.
   */
  function AfterDigits(t: string): (r: Option<(string, string)>)
    ensures r.Some? ==> r.value.0 != [] && |r.value.1| < |t|
  {
    var t1 := DropSpaces(t);
    var u := DropSpaces(if t1 != [] && t1[0] == '%' then t1[1..] else t1);
    var word := Span(u, FiberLetter);
    if word == [] then None else Some((word, u[|word|..]))
  }

  /**
   * A match of `[%]?\s*(\d+)\s*[%]?\s*(<letters>+)` at the digit run that opens `s`:
   * the digits, the letters and what follows them.
   */
  function MatchHere(s: string): Option<(string, string, string)> {
    var digits := Span(s, IsDigit);
    if digits == [] then None
    else
      match AfterDigits(s[|digits|..])
      case None => None
      case Some(f) => Some((digits, f.0, f.1))
  }

  lemma MatchHereShorter(s: string)
    ensures var m := MatchHere(s); m.Some? ==> |m.value.2| < |s| && IsMatch((m.value.0, m.value.1))
  {
    var digits := Span(s, IsDigit);
    if digits != [] && AfterDigits(s[|digits|..]).Some? {
      var f := AfterDigits(s[|digits|..]).value;
      assert f.0 == Span(DropSpaces(if DropSpaces(s[|digits|..]) != [] && DropSpaces(s[|digits|..])[0] == '%' then DropSpaces(s[|digits|..])[1..] else DropSpaces(s[|digits|..])), FiberLetter);
    }
  }

  /**
   * `re.findall` of that pattern: scanning left to right, each match is taken and the
   * search resumes after its letters; elsewhere the search moves on one character.
   */
  function Matches(s: string): (r: seq<(string, string)>)
    decreases |s|
  {
    if s == [] then []
    else
      var m := if IsDigit(s[0]) then MatchHere(s) else None;
      if m.None? then Matches(s[1..])
      else
        MatchHereShorter(s);
        [(m.value.0, m.value.1)] + Matches(m.value.2)
  }

  lemma {:induction false} MatchesAreMatches(s: string)
    ensures forall k :: 0 <= k < |Matches(s)| ==> IsMatch(Matches(s)[k])
    decreases |s|
  {
    if s != [] {
      var m := if IsDigit(s[0]) then MatchHere(s) else None;
      if m.None? {
        MatchesAreMatches(s[1..]);
      } else {
        MatchHereShorter(s);
        MatchesAreMatches(m.value.2);
      }
    }
  }

  /** The fiber of the first mapping entry whose name occurs in `word`. */
  function FirstFiber(word: string, table: seq<(string, string)>): Option<string> {
    if table == [] then None
    else if Contains(word, table[0].0) then Some(table[0].1)
    else FirstFiber(word, table[1..])
  }

  /** The fiber a matched word names, after lower-casing. */
  function FiberOf(word: string, table: seq<(string, string)>): Option<string> {
    FirstFiber(Lower(word), table)
  }

  /** `float(percentage)` of a digit run (every match's first group is one). */
  function Percentage(digits: string): real {
    if AllDigits(digits) then
      assert forall c :: c in digits ==> IsDigit(c);
      DigitsValue(digits) as real
    else 0.0
  }

  /** The composition the matches build, a later match of a fiber replacing an earlier one. */
  function Compose(matches: seq<(string, string)>, table: seq<(string, string)>): Dicts.Dict<string, real>
  {
    if matches == [] then []
    else
      var c := Compose(matches[..|matches| - 1], table);
      var last := matches[|matches| - 1];
      match FiberOf(last.1, table)
      case None => c
      case Some(fiber) => Dicts.Set(c, fiber, Percentage(last.0))
  }

  /** `parse_fabric_composition`: the composition found, or 100% cotton when none is. */
  function FabricComposition(text: string): Dicts.Dict<string, real> {
    var c := Compose(Matches(text), FabricMapping);
    if c == [] then [("cotton", 100.0)] else c
  }

  /** The inner loop of the parser: the first table entry whose name occurs in `word`. */
  method LookupFiber(word: string, table: seq<(string, string)>) returns (fiber: Option<string>)
    ensures fiber == FirstFiber(word, table)
  {
    fiber := None;
    var j := 0;
    while j < |table|
      invariant 0 <= j <= |table|
      invariant FirstFiber(word, table) == FirstFiber(word, table[j..])
    {
      var (trName, enName) := table[j];
      if Contains(word, trName) {
        fiber := Some(enName);
        break;
      }
      assert table[j..][1..] == table[j + 1..];
      j := j + 1;
    }
  }

  /** The loop of the parser over the matches, against a fiber table. */
  method ComposeMatches(matches: seq<(string, string)>, table: seq<(string, string)>)
    returns (composition: Dicts.Dict<string, real>)
    ensures composition == Compose(matches, table)
  {
    composition := [];
    for i := 0 to |matches|
      invariant composition == Compose(matches[..i], table)
    {
      assert matches[..i + 1][..i] == matches[..i];
      var (percentage, fabric) := matches[i];
      var fiber := LookupFiber(Lower(fabric), table);
      if fiber.Some? {
        composition := Dicts.Set(composition, fiber.value, Percentage(percentage));
      }
    }
    assert matches[..|matches|] == matches;
  }

  method ParseFabricComposition(text: string) returns (composition: Dicts.Dict<string, real>)
    ensures composition == FabricComposition(text)
  {
    var matches := Matches(text);
    composition := ComposeMatches(matches, FabricMapping);
    if composition == [] {
      composition := [("cotton", 100.0)];
    }
  }

  /** The mapping only names reported fibers. */
  predicate NamesFibers(table: seq<(string, string)>) {
    forall k :: 0 <= k < |table| ==> table[k].1 in FiberNames
  }

  lemma MappingNamesFibers()
    ensures NamesFibers(FabricMapping)
  {
  }

  /** Every fiber the table names is one of the reported fibers. */
  lemma {:induction false} FirstFiberNamesFiber(word: string, table: seq<(string, string)>)
    requires NamesFibers(table)
    ensures FirstFiber(word, table).Some? ==> FirstFiber(word, table).value in FiberNames
  {
    if table != [] && !Contains(word, table[0].0) {
      FirstFiberNamesFiber(word, table[1..]);
    }
  }

  /** The value of the last match naming `fiber`, if any. */
  function LastValue(matches: seq<(string, string)>, table: seq<(string, string)>, fiber: string): Option<real>
  {
    if matches == [] then None
    else
      var last := matches[|matches| - 1];
      if FiberOf(last.1, table) == Some(fiber) then Some(Percentage(last.0))
      else LastValue(matches[..|matches| - 1], table, fiber)
  }

  /**
   * Reading a fiber back from the composition gives the percentage of its last match:
   * a later mention of the same fiber overwrites an earlier one.
   */
  lemma {:induction false} ComposeKeepsLastMention(matches: seq<(string, string)>, table: seq<(string, string)>, fiber: string)
    ensures Dicts.Get(Compose(matches, table), fiber) == LastValue(matches, table, fiber)
  {
    if matches != [] {
      var p := matches[..|matches| - 1];
      var last := matches[|matches| - 1];
      ComposeKeepsLastMention(p, table, fiber);
      match FiberOf(last.1, table)
      case None =>
      case Some(f) =>
        if f == fiber {
          Dicts.GetSetSame(Compose(p, table), f, Percentage(last.0));
        } else {
          Dicts.GetSetOther(Compose(p, table), f, Percentage(last.0), fiber);
        }
    }
  }

  /** The composition names each fiber once, and only fibers the table names. */
  lemma {:induction false} ComposeKeys(matches: seq<(string, string)>, table: seq<(string, string)>)
    requires NamesFibers(table)
    ensures Dicts.DistinctKeys(Compose(matches, table))
    ensures forall k :: 0 <= k < |Compose(matches, table)| ==> Compose(matches, table)[k].0 in FiberNames
  {
    if matches != [] {
      var p := matches[..|matches| - 1];
      var last := matches[|matches| - 1];
      ComposeKeys(p, table);
      var c := Compose(p, table);
      FirstFiberNamesFiber(Lower(last.1), table);
      match FiberOf(last.1, table)
      case None =>
      case Some(f) =>
        Dicts.SetDistinct(c, f, Percentage(last.0));
        Dicts.SetKeys(c, f, Percentage(last.0));
        var r := Dicts.Set(c, f, Percentage(last.0));
        forall k | 0 <= k < |r| ensures r[k].0 in FiberNames {
          assert Dicts.HasKey(r, r[k].0) by { assert Dicts.Keys(r)[k] == r[k].0; }
          if r[k].0 != f {
            assert Dicts.HasKey(c, r[k].0);
            var i :| 0 <= i < |c| && Dicts.Keys(c)[i] == r[k].0;
            assert c[i].0 == r[k].0;
          }
        }
    }
  }

  /** The composition stays empty exactly when no match names a known fiber. */
  lemma {:induction false} ComposeEmptyIffNoFiber(matches: seq<(string, string)>, table: seq<(string, string)>)
    ensures Compose(matches, table) == [] <==> forall k :: 0 <= k < |matches| ==> FiberOf(matches[k].1, table).None?
  {
    if matches != [] {
      var n := |matches| - 1;
      var p := matches[..n];
      ComposeEmptyIffNoFiber(p, table);
      if FiberOf(matches[n].1, table).None? {
        assert Compose(matches, table) == Compose(p, table);
        assert (forall k :: 0 <= k < |matches| ==> FiberOf(matches[k].1, table).None?) <==>
          (forall k :: 0 <= k < |p| ==> FiberOf(p[k].1, table).None?) by {
          assert forall k :: 0 <= k < |p| ==> p[k] == matches[k];
        }
      } else {
        var f := FiberOf(matches[n].1, table).value;
        var v := Percentage(matches[n].0);
        assert Compose(matches, table) == Dicts.Set(Compose(p, table), f, v);
        Dicts.GetSetSame(Compose(p, table), f, v);
        assert Compose(matches, table) != [];
      }
    }
  }

  /**
   * The parsed composition is never empty and names each fiber once, only fibers of the
   * table. It is 100% cotton when no match names a known fiber, and otherwise exactly
   * what the matches compose.
   */
  lemma FabricCompositionShape(text: string)
    ensures FabricComposition(text) != []
    ensures Dicts.DistinctKeys(FabricComposition(text))
    ensures forall k :: 0 <= k < |FabricComposition(text)| ==> FabricComposition(text)[k].0 in FiberNames
    ensures (forall k :: 0 <= k < |Matches(text)| ==> FiberOf(Matches(text)[k].1, FabricMapping).None?) ==>
      FabricComposition(text) == [("cotton", 100.0)]
    ensures (exists k :: 0 <= k < |Matches(text)| && FiberOf(Matches(text)[k].1, FabricMapping).Some?) ==>
      FabricComposition(text) == Compose(Matches(text), FabricMapping)
  {
    MappingNamesFibers();
    ComposeKeys(Matches(text), FabricMapping);
    ComposeEmptyIffNoFiber(Matches(text), FabricMapping);
    var c := FabricComposition(text);
    if Compose(Matches(text), FabricMapping) == [] {
      assert c == [("cotton", 100.0)];
      assert Dicts.Keys(c) == ["cotton"];
      assert c[0].0 == "cotton" == FiberNames[0];
    }
  }

  // === Fit type ===

  /** The keyword groups of `detect_fit_type`, tried in order on the lower-cased text. */
  function FitTypeOfText(text: string): (r: FitType)
    ensures r != Oversized
  {
    if Contains(text, "slim fit") || Contains(text, "slim-fit") || Contains(text, "dar kalƒ±p") then SlimFit
    else if Contains(text, "regular fit") || Contains(text, "regular-fit") || Contains(text, "normal kalƒ±p") then RegularFit
    else if Contains(text, "loose") || Contains(text, "oversize") || Contains(text, "bol kalƒ±p") then LooseFit
    else if Contains(text, "relaxed") then LooseFit
    else RegularFit
  }

  /** `detect_fit_type`; it never answers `oversized`. */
  function DetectFitType(title: string, description: string): (r: FitType)
    ensures r != Oversized
  {
    FitTypeOfText(Lower(title + " " + description))
  }

  /** Lower-casing the parts first does not change the lower-cased text. */
  lemma LowerTextOfLowerParts(title: string, description: string)
    ensures Lower(Lower(title) + " " + Lower(description)) == Lower(title + " " + description)
  {
    LowerConcat(Lower(title) + " ", Lower(description));
    LowerConcat(Lower(title), " ");
    LowerConcat(title + " ", description);
    LowerConcat(title, " ");
    LowerIdempotent(title);
    LowerIdempotent(description);
  }

  /** Detection ignores the case of the title and description. */
  lemma DetectFitTypeIgnoresCase(title: string, description: string)
    ensures DetectFitType(Lower(title), Lower(description)) == DetectFitType(title, description)
  {
    LowerTextOfLowerParts(title, description);
  }

  /** An occurrence in the title is one in the text that detection reads. */
  lemma TitleInText(title: string, description: string, keyword: string)
    requires Contains(Lower(title), keyword)
    ensures Contains(Lower(title + " " + description), keyword)
  {
    LowerConcat(title + " ", description);
    LowerConcat(title, " ");
    ContainsInConcat(Lower(title), Lower(" "), keyword);
    ContainsInConcat(Lower(title) + Lower(" "), Lower(description), keyword);
  }

  /** A "slim fit" title is slim fit whatever the description says. */
  lemma SlimTitleWins(title: string, description: string)
    requires Contains(Lower(title), "slim fit")
    ensures DetectFitType(title, description) == SlimFit
  {
    TitleInText(title, description, "slim fit");
    var text := Lower(title + " " + description);
    assert Contains(text, "slim fit");
    assert FitTypeOfText(text) == SlimFit;
  }

  /** The span of `a + b` is `a` when every character of `a` qualifies and `b` does not start with one. */
  lemma {:induction false} SpanOf(a: string, b: string, p: char -> bool)
    requires forall i :: 0 <= i < |a| ==> p(a[i])
    requires b == [] || !p(b[0])
    ensures Span(a + b, p) == a
  {
    if a != [] {
      assert (a + b)[1..] == a[1..] + b;
      SpanOf(a[1..], b, p);
    }
  }

  predicate AllSpaces(s: string) {
    forall i :: 0 <= i < |s| ==> IsSpace(s[i])
  }

  lemma DropSpacesOf(a: string, b: string)
    requires AllSpaces(a) && (b == [] || !IsSpace(b[0]))
    ensures DropSpaces(a + b) == b
  {
    SpanOf(a, b, IsSpace);
    assert (a + b)[|a|..] == b;
  }

  /** The search passes over a character that cannot start a match. */
  lemma SkipNonDigit(c: char, rest: string)
    requires !IsDigit(c)
    ensures Matches([c] + rest) == Matches(rest)
  {
    assert ([c] + rest)[1..] == rest;
  }

  /** A fiber letter is neither whitespace nor a percent sign. */
  lemma FiberLetterIsPlain(c: char)
    requires FiberLetter(c)
    ensures !IsSpace(c) && c != '%'
  {
    if !IsAsciiLetter(c) {
      assert c in "ƒ±ü√º≈∂ßûúñá∞" || c in "ƑÜÛÚÑÁẞ";
    }
  }

  /** A word of fiber letters, then a character that is not one. */
  predicate WordThen(word: string, rest: string) {
    word != [] && (forall i :: 0 <= i < |word| ==> FiberLetter(word[i])) && (rest == [] || !FiberLetter(rest[0]))
  }

  /** The last stage of the pattern reads exactly the word. */
  lemma WordStage(word: string, rest: string)
    requires WordThen(word, rest)
    ensures var u := word + rest;
      u != [] && u[0] != '%' && DropSpaces(u) == u && Span(u, FiberLetter) == word && u[|word|..] == rest
  {
    var u := word + rest;
    assert u[0] == word[0];
    FiberLetterIsPlain(word[0]);
    DropSpacesOf([], u);
    assert [] + u == u;
    SpanOf(word, rest, FiberLetter);
    assert u[|word|..] == rest;
  }

  /** Spaces then letters: the letters are the word. */
  lemma AfterDigitsNoPercent(gap: string, word: string, rest: string)
    requires AllSpaces(gap) && WordThen(word, rest)
    ensures AfterDigits(gap + word + rest) == Some((word, rest))
  {
    var u := word + rest;
    assert gap + word + rest == gap + u;
    WordStage(word, rest);
    DropSpacesOf(gap, u);
  }

  /** Spaces, "%", spaces, then letters: the letters are the word. */
  lemma AfterDigitsPercent(gap1: string, gap2: string, word: string, rest: string)
    requires AllSpaces(gap1) && AllSpaces(gap2) && WordThen(word, rest)
    ensures AfterDigits(gap1 + "%" + gap2 + word + rest) == Some((word, rest))
  {
    var u := word + rest;
    var tail := "%" + (gap2 + u);
    assert gap1 + "%" + gap2 + word + rest == gap1 + tail;
    assert tail[0] == '%';
    DropSpacesOf(gap1, tail);
    assert tail[1..] == gap2 + u;
    WordStage(word, rest);
    DropSpacesOf(gap2, u);
  }

  /** A digit run followed by a non-digit is matched there exactly when the rest allows. */
  lemma MatchHereAt(digits: string, after: string)
    requires digits != [] && AllDigits(digits)
    requires after == [] || !IsDigit(after[0])
    ensures MatchHere(digits + after) ==
      match AfterDigits(after) case None => None case Some(f) => Some((digits, f.0, f.1))
  {
    SpanOf(digits, after, IsDigit);
    assert (digits + after)[|digits|..] == after;
  }

  /** A match found at the head of the text is the first of the matches. */
  lemma MatchAt(digits: string, after: string, word: string, rest: string)
    requires digits != [] && AllDigits(digits)
    requires after == [] || !IsDigit(after[0])
    requires AfterDigits(after) == Some((word, rest))
    ensures Matches(digits + after) == [(digits, word)] + Matches(rest)
  {
    MatchHereAt(digits, after);
    assert (digits + after)[0] == digits[0];
  }
}
