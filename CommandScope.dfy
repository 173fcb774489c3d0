/** Chat-command patterns. A pattern is a line of words: `{name}` a required
    parameter, `[name]` an optional one, `<name>` a vararg taking the rest of the
    line, `|a,b|` a choice between fixed words, and any other word a fixed path
    word. A scope validates its pattern when it is built and matches the text
    after the command mark against it, binding parameter names to words. */
module CommandScope {
  import opened Wrappers
  import opened Strings
  import opened Numbers
  import Collections

  datatype Part =
    | Path(name: string)
    | Required(name: string)
    | Optional(name: string)
    | Vararg(name: string)
    | Choice(name: string, choices: seq<string>)
  {
    /** A fixed word of the pattern, as opposed to a parameter. */
    predicate IsPath() { Path? || Choice? }
  }

  /** The options of a choice: the non-blank pieces of its comma-separated body. */
  function Options(body: string): seq<string> {
    NonBlank(Split(body, ','))
  }

  /** Classifying one word of a pattern by its first and last character. A lone
      "|" opens and closes a choice whose body would be substring(1, 0), which throws. */
  function ClassifyPart(word: string): (r: Result<Part>)
    requires word != []
    ensures r.Err? <==> word == "|"
    ensures r.Err? ==> r.error == IndexOutOfBounds
    ensures r.Ok? && r.value.Choice? ==> r.value.choices == Options(r.value.name)
    ensures r.Ok? && r.value.Path? ==> r.value.name == word
    ensures r.Ok? && !r.value.Path? ==> |word| >= 2 && r.value.name == word[1..|word| - 1]
  {
    var first, last := word[0], word[|word| - 1];
    if first == '{' && last == '}' then Ok(Required(word[1..|word| - 1]))
    else if first == '[' && last == ']' then Ok(Optional(word[1..|word| - 1]))
    else if first == '<' && last == '>' then Ok(Vararg(word[1..|word| - 1]))
    else if first == '|' && last == '|' then
      if |word| < 2 then Err(IndexOutOfBounds)
      else Ok(Choice(word[1..|word| - 1], Options(word[1..|word| - 1])))
    else Ok(Path(word))
  }

  /** How a part is written in a pattern. */
  function RenderPart(p: Part): string {
    match p
    case Path(n) => n
    case Required(n) => "{" + n + "}"
    case Optional(n) => "[" + n + "]"
    case Vararg(n) => "<" + n + ">"
    case Choice(n, _) => "|" + n + "|"
  }

  /** A path word that no bracket pair claims, and a choice whose options are its body's. */
  predicate Renderable(p: Part) {
    match p
    case Path(n) =>
      n != [] && !(n[0] == '{' && n[|n| - 1] == '}') && !(n[0] == '[' && n[|n| - 1] == ']')
      && !(n[0] == '<' && n[|n| - 1] == '>') && !(n[0] == '|' && n[|n| - 1] == '|')
    case Choice(n, cs) => cs == Options(n)
    case _ => true
  }

  /** Classification reads back every part as it is written. */
  lemma ClassifyRoundTrip(p: Part)
    requires Renderable(p)
    ensures RenderPart(p) != [] && ClassifyPart(RenderPart(p)) == Ok(p)
  {
    var w := RenderPart(p);
    if !p.Path? {
      assert w[1..|w| - 1] == p.name;
    }
  }

  /** The words of a pattern, or of a command line after its mark. */
  function Words(s: string): seq<string> {
    NonBlank(Split(s, ' '))
  }

  lemma NonBlankNotEmpty(w: string)
    requires !IsBlank(w)
    ensures w != []
  {
  }

  /** Classifying every word; the first word that throws ends the construction. */
  function ClassifyAll(words: seq<string>): (r: Result<seq<Part>>)
    requires forall k :: 0 <= k < |words| ==> words[k] != []
    ensures r.Err? <==> "|" in words
    ensures r.Err? ==> r.error == IndexOutOfBounds
    ensures r.Ok? ==> |r.value| == |words|
    ensures r.Ok? ==> forall k :: 0 <= k < |words| ==> Ok(r.value[k]) == ClassifyPart(words[k])
  {
    if |words| == 0 then Ok([])
    else
      match ClassifyPart(words[0])
      case Err(e) => Err(e)
      case Ok(p) =>
        match ClassifyAll(words[1..])
        case Err(e) => Err(e)
        case Ok(ps) => Ok([p] + ps)
  }

  /** The names a pattern declares: every option of a choice, the name of any other part. */
  function Names(parts: seq<Part>): seq<string> {
    if |parts| == 0 then []
    else (if parts[0].Choice? then parts[0].choices else [parts[0].name]) + Names(parts[1..])
  }

  predicate HasVararg(parts: seq<Part>) {
    exists k :: 0 <= k < |parts| && parts[k].Vararg?
  }

  predicate EndsWithVararg(parts: seq<Part>) {
    |parts| > 0 && parts[|parts| - 1].Vararg?
  }

  predicate HasCommalessChoice(parts: seq<Part>) {
    exists k :: 0 <= k < |parts| && parts[k].Choice? && ',' !in parts[k].name
  }

  /** The three checks of the constructor, in their order. */
  function Validate(parts: seq<Part>): (r: Outcome)
    ensures r.Pass? <==> ValidParts(parts)
    ensures !Collections.Distinct(Names(parts)) ==> r == Fail(PatternParse("Pattern names must be unique"))
    ensures Collections.Distinct(Names(parts)) && HasVararg(parts) && !EndsWithVararg(parts) ==>
              r == Fail(PatternParse("Vararg parameter must be at the end of pattern"))
    ensures Collections.Distinct(Names(parts)) && (HasVararg(parts) ==> EndsWithVararg(parts)) && HasCommalessChoice(parts) ==>
              r == Fail(PatternParse("Choice pattern must have at least 2 options (separated with comma)"))
  {
    if !Collections.Distinct(Names(parts)) then Fail(PatternParse("Pattern names must be unique"))
    else if HasVararg(parts) && !EndsWithVararg(parts) then
      Fail(PatternParse("Vararg parameter must be at the end of pattern"))
    else if HasCommalessChoice(parts) then
      Fail(PatternParse("Choice pattern must have at least 2 options (separated with comma)"))
    else Pass
  }

  predicate ValidParts(parts: seq<Part>) {
    Collections.Distinct(Names(parts)) && (HasVararg(parts) ==> EndsWithVararg(parts)) && !HasCommalessChoice(parts)
  }

  /** A command scope: its mark, its full pattern (a nested scope's pattern starts
      with its parent's) and the parts parsed from it. */
  datatype Scope = Scope(cmdMark: char, pattern: string, parts: seq<Part>)

  lemma WordsNotEmpty(s: string)
    ensures forall k :: 0 <= k < |Words(s)| ==> Words(s)[k] != []
  {
    forall k | 0 <= k < |Words(s)|
      ensures Words(s)[k] != []
    {
      NonBlankNotEmpty(Words(s)[k]);
    }
  }

  /** The parts of a pattern before validation: its words, classified. */
  function PatternParts(pattern: string): (r: Result<seq<Part>>)
    ensures r.Ok? ==> |r.value| == |Words(pattern)|
    ensures r.Ok? ==> forall k :: 0 <= k < |r.value| ==>
                        Words(pattern)[k] != [] && Ok(r.value[k]) == ClassifyPart(Words(pattern)[k])
    ensures r.Err? <==> "|" in Words(pattern)
  {
    WordsNotEmpty(pattern);
    ClassifyAll(Words(pattern))
  }

  /** Building a scope: classify the words of the pattern, then validate them. */
  function NewScope(cmdMark: char, pattern: string): (r: Result<Scope>)
    ensures r.Ok? ==> r.value.cmdMark == cmdMark && r.value.pattern == pattern && ValidParts(r.value.parts)
    ensures r.Ok? ==> |r.value.parts| == |Words(pattern)|
    ensures r.Ok? ==> forall k :: 0 <= k < |r.value.parts| ==>
                        Words(pattern)[k] != [] && Ok(r.value.parts[k]) == ClassifyPart(Words(pattern)[k])
    ensures r.Err? ==> r.error == IndexOutOfBounds || r.error.PatternParse?
    ensures PatternParts(pattern).Err? ==> r == Err(IndexOutOfBounds)
    ensures PatternParts(pattern).Ok? ==> (r.Ok? <==> ValidParts(PatternParts(pattern).value))
    ensures PatternParts(pattern).Ok? && r.Err? ==> Fail(r.error) == Validate(PatternParts(pattern).value)
  {
    match PatternParts(pattern)
    case Err(e) => Err(e)
    case Ok(parts) =>
      match Validate(parts)
      case Fail(e) => Err(e)
      case Pass => Ok(Scope(cmdMark, pattern, parts))
  }

  /** `commands(mark) { }`: the root scope, whose pattern is empty. */
  function Root(cmdMark: char): (r: Result<Scope>)
    ensures r == Ok(Scope(cmdMark, "", []))
  {
    assert Split("", ' ') == [""];
    NewScope(cmdMark, "")
  }

  /** `"sub" { }` and `"sub" receive { }` inside a scope: the child's pattern is the
      parent's, a space, and its own. */
  function Nested(parent: Scope, pattern: string): Result<Scope> {
    NewScope(parent.cmdMark, parent.pattern + " " + pattern)
  }

  lemma WordsAppend(a: string, b: string)
    ensures Words(a + " " + b) == Words(a) + Words(b)
  {
    SplitAppend(a, b, ' ');
    assert a + " " + b == a + [' '] + b;
    NonBlankAppend(Split(a, ' '), Split(b, ' '));
  }

  lemma {:induction false} ClassifyAllAppend(a: seq<string>, b: seq<string>)
    requires forall k :: 0 <= k < |a| ==> a[k] != []
    requires forall k :: 0 <= k < |b| ==> b[k] != []
    ensures ClassifyAll(a + b).Ok? <==> ClassifyAll(a).Ok? && ClassifyAll(b).Ok?
    ensures ClassifyAll(a + b).Ok? ==> ClassifyAll(a + b).value == ClassifyAll(a).value + ClassifyAll(b).value
  {
    var ab := a + b;
    assert "|" in ab <==> "|" in a || "|" in b;
    if ClassifyAll(ab).Ok? {
      var r, ra, rb := ClassifyAll(ab).value, ClassifyAll(a).value, ClassifyAll(b).value;
      forall k | 0 <= k < |ab|
        ensures r[k] == (ra + rb)[k]
      {
        if k < |a| {
          assert Ok(r[k]) == ClassifyPart(a[k]) == Ok(ra[k]);
        } else {
          assert Ok(r[k]) == ClassifyPart(b[k - |a|]) == Ok(rb[k - |a|]);
        }
      }
    }
  }

  /** A nested scope has its parent's parts followed by its own pattern's parts, so a
      parent ending in a vararg admits only nested patterns that are blank or end in
      a vararg themselves: otherwise the vararg would no longer be last. */
  lemma NestedParts(parent: Scope, pattern: string)
    requires NewScope(parent.cmdMark, parent.pattern) == Ok(parent)
    ensures Nested(parent, pattern).Ok? ==>
              && PatternParts(pattern).Ok?
              && Nested(parent, pattern).value.parts == parent.parts + PatternParts(pattern).value
              && (EndsWithVararg(parent.parts) ==>
                    Words(pattern) == [] || EndsWithVararg(PatternParts(pattern).value))
  {
    var full := parent.pattern + " " + pattern;
    WordsAppend(parent.pattern, pattern);
    WordsNotEmpty(parent.pattern);
    WordsNotEmpty(pattern);
    WordsNotEmpty(full);
    ClassifyAllAppend(Words(parent.pattern), Words(pattern));
    if Nested(parent, pattern).Ok? {
      var ps := Nested(parent, pattern).value.parts;
      assert ClassifyAll(Words(full)) == Ok(ps);
      assert ClassifyAll(Words(parent.pattern)) == Ok(parent.parts);
      var rest := ClassifyAll(Words(pattern)).value;
      assert ps == parent.parts + rest;
      assert ValidParts(ps);
      VarargStaysLast(parent.parts, rest);
    }
  }

  /** A valid list of parts that extends one ending in a vararg extends it by nothing
      or ends in a vararg itself. */
  lemma VarargStaysLast(before: seq<Part>, rest: seq<Part>)
    requires ValidParts(before + rest)
    ensures EndsWithVararg(before) ==> rest == [] || EndsWithVararg(rest)
  {
    var ps := before + rest;
    if EndsWithVararg(before) && rest != [] {
      assert ps[|before| - 1].Vararg?;
      assert HasVararg(ps);
      assert ps[|ps| - 1] == rest[|rest| - 1];
    }
  }

  // === the bounds on the number of words ===

  function CountRequired(parts: seq<Part>): (n: nat)
    ensures n <= |parts|
  {
    if |parts| == 0 then 0 else (if parts[0].Required? then 1 else 0) + CountRequired(parts[1..])
  }

  /** `min`: the parts that must receive a word. */
  function Min(parts: seq<Part>): (n: nat)
    ensures n <= |parts|
  {
    if |parts| == 0 then 0
    else (if parts[0].Optional? || parts[0].Vararg? then 0 else 1) + Min(parts[1..])
  }

  /** `max`: Int.MAX_VALUE when the pattern ends in a vararg, else one word per part. */
  function Max(parts: seq<Part>): int {
    if EndsWithVararg(parts) then INT_MAX else |parts|
  }

  // === matching a command line ===

  /** Whether `word` is the fixed word (or one of the options) of a path part. */
  predicate Fits(p: Part, word: string) {
    if p.Choice? then word in p.choices else word == p.name
  }

  /** `path.all { ... }`: every path word, and some option of every choice, occurs
      somewhere in the input (as a substring, the mark included). */
  predicate PathPresent(parts: seq<Part>, input: string) {
    forall k :: 0 <= k < |parts| && parts[k].IsPath() ==> PartPresent(parts[k], input)
  }

  predicate PartPresent(p: Part, input: string) {
    if p.Choice? then exists c :: c in p.choices && Contains(input, c)
    else Contains(input, p.name)
  }

  /** The index of the first path part at or after `from`, or |parts|. */
  function NextPathIndex(parts: seq<Part>, from: nat): (r: nat)
    requires from <= |parts|
    ensures from <= r <= |parts|
    ensures forall k :: from <= k < r ==> !parts[k].IsPath()
    ensures r < |parts| ==> parts[r].IsPath()
    decreases |parts| - from
  {
    if from == |parts| || parts[from].IsPath() then from else NextPathIndex(parts, from + 1)
  }

  /** The index of the first word at or after `from` that fits `p`, or -1. */
  function IndexOfFit(words: seq<string>, p: Part, from: nat): (r: int)
    ensures r == -1 || from <= r < |words|
    ensures r != -1 ==> Fits(p, words[r])
    ensures forall k :: from <= k < |words| && (r == -1 || k < r) ==> !Fits(p, words[k])
    decreases |words| - from
  {
    if from >= |words| then -1
    else if Fits(p, words[from]) then from
    else IndexOfFit(words, p, from + 1)
  }

  /** Where `canUseOptional` looks for the next path word: the code searches the
      words from the first one; the search evidently meant starts at the current word. */
  datatype Search = FromFirstWord | FromCurrentWord

  /** `canUseOptional`: the optional part at `pi` takes the word at `wi` when the
      words left before the next path word outnumber the required parts before it. */
  predicate CanUseOptional(parts: seq<Part>, words: seq<string>, search: Search, pi: nat, wi: nat)
    requires pi <= |parts|
  {
    var next := NextPathIndex(parts, pi);
    var nextWord :=
      if next == |parts| then |words|
      else IndexOfFit(words, parts[next], if search == FromFirstWord then 0 else wi);
    nextWord - wi > CountRequired(parts[pi..next])
  }

  /** The matching loop from part `pi` and word `wi` on, with the bindings `acc` so far. */
  function MatchFrom(parts: seq<Part>, words: seq<string>, search: Search, pi: nat, wi: nat,
                     acc: map<string, string>): Option<map<string, string>>
    requires pi <= |parts| && wi <= |words|
    decreases |parts| - pi
  {
    if pi == |parts| || wi == |words| then Some(acc)
    else
      var word := words[wi];
      match parts[pi]
      case Path(n) =>
        if word == n then MatchFrom(parts, words, search, pi + 1, wi + 1, acc) else None
      case Choice(_, cs) =>
        if word in cs then MatchFrom(parts, words, search, pi + 1, wi + 1, acc) else None
      case Required(n) =>
        MatchFrom(parts, words, search, pi + 1, wi + 1, acc[n := word])
      case Vararg(n) =>
        MatchFrom(parts, words, search, pi + 1, wi, acc[n := Join(words[wi..], " ")])
      case Optional(n) =>
        if CanUseOptional(parts, words, search, pi, wi) then
          MatchFrom(parts, words, search, pi + 1, wi + 1, acc[n := word])
        else MatchFrom(parts, words, search, pi + 1, wi, acc)
  }

  /** `parseInput`: the words after the mark, the bounds, the path check, then the loop. */
  function ParseInputWith(scope: Scope, input: string, search: Search): (r: Option<map<string, string>>)
    requires |input| >= 1
    ensures r.Some? ==> Min(scope.parts) <= |Words(input[1..])| <= Max(scope.parts)
    ensures r.Some? ==> PathPresent(scope.parts, input)
  {
    var words := Words(input[1..]);
    if !(Min(scope.parts) <= |words| <= Max(scope.parts)) then None
    else if !PathPresent(scope.parts, input) then None
    else MatchFrom(scope.parts, words, search, 0, 0, map[])
  }

  /** parseInput as written. */
  function ParseInputAsWritten(scope: Scope, input: string): Option<map<string, string>>
    requires |input| >= 1
  {
    ParseInputWith(scope, input, FromFirstWord)
  }

  /** parseInput with the search for the next path word starting at the current word. */
  function ParseInput(scope: Scope, input: string): Option<map<string, string>>
    requires |input| >= 1
  {
    ParseInputWith(scope, input, FromCurrentWord)
  }

  /** parseInput step by step: the bounds, the path check, then the matching loop. */
  method MatchInput(scope: Scope, input: string) returns (r: Option<map<string, string>>)
    requires |input| >= 1
    ensures r == ParseInput(scope, input)
  {
    var parts := scope.parts;
    var words := Words(input[1..]);
    if !(Min(parts) <= |words| <= Max(parts)) {
      return None;
    }
    if !PathPresent(parts, input) {
      return None;
    }
    r := MatchWords(parts, words);
  }

  /** The loop over the parts, binding the words in `result`. */
  method MatchWords(parts: seq<Part>, words: seq<string>) returns (r: Option<map<string, string>>)
    ensures r == MatchFrom(parts, words, FromCurrentWord, 0, 0, map[])
  {
    var wordIndex := 0;
    var result: map<string, string> := map[];
    var patternIndex := 0;
    while patternIndex < |parts|
      invariant 0 <= patternIndex <= |parts| && 0 <= wordIndex <= |words|
      invariant MatchFrom(parts, words, FromCurrentWord, patternIndex, wordIndex, result)
             == MatchFrom(parts, words, FromCurrentWord, 0, 0, map[])
      decreases |parts| - patternIndex
    {
      if wordIndex >= |words| {
        break;
      }
      var word := words[wordIndex];
      match parts[patternIndex] {
        case Path(n) =>
          if word != n {
            return None;
          }
          wordIndex := wordIndex + 1;
        case Choice(_, cs) =>
          if word !in cs {
            return None;
          }
          wordIndex := wordIndex + 1;
        case Required(n) =>
          result := result[n := word];
          wordIndex := wordIndex + 1;
        case Vararg(n) =>
          result := result[n := Join(words[wordIndex..], " ")];
        case Optional(n) =>
          if CanUseOptional(parts, words, FromCurrentWord, patternIndex, wordIndex) {
            result := result[n := word];
            wordIndex := wordIndex + 1;
          }
      }
      patternIndex := patternIndex + 1;
    }
    return Some(result);
  }

  // === what a match binds ===

  /** Whether `key` names a parameter at or after part `from`. */
  predicate ParamNamedFrom(parts: seq<Part>, from: nat, key: string) {
    exists k :: from <= k < |parts| && !parts[k].IsPath() && parts[k].name == key
  }

  /** A match binds parameter names only: the bindings it starts from, and the names
      of parameters it has still to reach. Path words and choices are never keys. */
  lemma {:induction false} MatchKeys(parts: seq<Part>, words: seq<string>, search: Search, pi: nat, wi: nat,
                                     acc: map<string, string>)
    requires pi <= |parts| && wi <= |words|
    ensures var r := MatchFrom(parts, words, search, pi, wi, acc);
            r.Some? ==> forall key :: key in r.value ==> key in acc || ParamNamedFrom(parts, pi, key)
    decreases |parts| - pi
  {
    if pi < |parts| && wi < |words| {
      var word := words[wi];
      match parts[pi]
      case Path(n) =>
        MatchKeys(parts, words, search, pi + 1, wi + 1, acc);
      case Choice(_, cs) =>
        MatchKeys(parts, words, search, pi + 1, wi + 1, acc);
      case Required(n) =>
        MatchKeys(parts, words, search, pi + 1, wi + 1, acc[n := word]);
        NamedFromStep(parts, pi);
      case Vararg(n) =>
        MatchKeys(parts, words, search, pi + 1, wi, acc[n := Join(words[wi..], " ")]);
        NamedFromStep(parts, pi);
      case Optional(n) =>
        MatchKeys(parts, words, search, pi + 1, wi + 1, acc[n := word]);
        MatchKeys(parts, words, search, pi + 1, wi, acc);
        NamedFromStep(parts, pi);
    }
  }

  /** A match keeps every binding it starts from whose name no parameter still to
      be reached carries. */
  lemma {:induction false} MatchKeeps(parts: seq<Part>, words: seq<string>, search: Search, pi: nat, wi: nat,
                                      acc: map<string, string>)
    requires pi <= |parts| && wi <= |words|
    ensures var r := MatchFrom(parts, words, search, pi, wi, acc);
            r.Some? ==> forall key :: key in acc && !ParamNamedFrom(parts, pi, key) ==>
                          key in r.value && r.value[key] == acc[key]
    decreases |parts| - pi
  {
    if pi < |parts| && wi < |words| {
      var word := words[wi];
      NamedFromStep(parts, pi);
      match parts[pi]
      case Path(n) =>
        MatchKeeps(parts, words, search, pi + 1, wi + 1, acc);
      case Choice(_, cs) =>
        MatchKeeps(parts, words, search, pi + 1, wi + 1, acc);
      case Required(n) =>
        MatchKeeps(parts, words, search, pi + 1, wi + 1, acc[n := word]);
      case Vararg(n) =>
        MatchKeeps(parts, words, search, pi + 1, wi, acc[n := Join(words[wi..], " ")]);
      case Optional(n) =>
        if CanUseOptional(parts, words, search, pi, wi) {
          MatchKeeps(parts, words, search, pi + 1, wi + 1, acc[n := word]);
        } else {
          MatchKeeps(parts, words, search, pi + 1, wi, acc);
        }
    }
  }

  lemma NamedFromStep(parts: seq<Part>, pi: nat)
    requires pi < |parts|
    ensures forall key :: ParamNamedFrom(parts, pi + 1, key) ==> ParamNamedFrom(parts, pi, key)
    ensures !parts[pi].IsPath() ==> ParamNamedFrom(parts, pi, parts[pi].name)
  {
  }

  /** No two parameters share a name. */
  predicate DistinctParams(parts: seq<Part>) {
    forall i, j :: 0 <= i < j < |parts| && !parts[i].IsPath() && !parts[j].IsPath() ==>
      parts[i].name != parts[j].name
  }

  lemma {:induction false} NamesAppend(a: seq<Part>, b: seq<Part>)
    ensures Names(a + b) == Names(a) + Names(b)
    decreases |a|
  {
    if |a| > 0 {
      assert (a + b)[1..] == a[1..] + b;
      NamesAppend(a[1..], b);
    } else {
      assert a + b == b;
    }
  }

  /** A parameter's name stands in the declared names right after the names before it. */
  lemma NamePosition(parts: seq<Part>, k: nat)
    requires k < |parts| && !parts[k].IsPath()
    ensures |Names(parts[..k])| < |Names(parts)|
    ensures Names(parts)[|Names(parts[..k])|] == parts[k].name
  {
    assert parts == parts[..k] + parts[k..];
    NamesAppend(parts[..k], parts[k..]);
  }

  /** The unique-names check covers the parameters. */
  lemma DistinctNamesParams(parts: seq<Part>)
    requires Collections.Distinct(Names(parts))
    ensures DistinctParams(parts)
  {
    forall i, j | 0 <= i < j < |parts| && !parts[i].IsPath() && !parts[j].IsPath()
      ensures parts[i].name != parts[j].name
    {
      NamePosition(parts, i);
      NamePosition(parts, j);
      assert parts[..j] == parts[..i] + parts[i..j];
      NamesAppend(parts[..i], parts[i..j]);
      assert Names(parts[i..j]) != [] by {
        assert parts[i..j][0] == parts[i];
      }
    }
  }

  // === patterns of fixed arity ===

  predicate NoOptional(parts: seq<Part>) {
    forall k :: 0 <= k < |parts| ==> !parts[k].Optional?
  }

  /** At most one vararg, as the last part. */
  predicate VarargOnlyLast(parts: seq<Part>) {
    forall k :: 0 <= k < |parts| - 1 ==> !parts[k].Vararg?
  }

  /** The parts before a trailing vararg. */
  function FixedLength(parts: seq<Part>): nat {
    if EndsWithVararg(parts) then |parts| - 1 else |parts|
  }

  lemma {:induction false} MinFixed(parts: seq<Part>)
    requires NoOptional(parts) && VarargOnlyLast(parts)
    ensures Min(parts) == FixedLength(parts)
    decreases |parts|
  {
    if |parts| > 0 {
      assert NoOptional(parts[1..]) && VarargOnlyLast(parts[1..]);
      MinFixed(parts[1..]);
      if |parts| > 1 {
        assert parts[1..][|parts| - 2] == parts[|parts| - 1];
      }
    }
  }

  /** The match of a pattern without optional parts goes word for word: it succeeds
      exactly when every path word sits at its place, binds each required part to the
      word at its place and a trailing vararg to the rest joined by spaces (when there
      is any rest), and keeps earlier bindings no later parameter renames. */
  lemma MatchFixed(parts: seq<Part>, words: seq<string>, search: Search, i: nat, acc: map<string, string>)
    requires NoOptional(parts) && VarargOnlyLast(parts) && DistinctParams(parts)
    requires i <= FixedLength(parts) <= |words|
    ensures var r := MatchFrom(parts, words, search, i, i, acc);
            var f := FixedLength(parts);
            && (r.Some? <==> forall k :: i <= k < f && parts[k].IsPath() ==> Fits(parts[k], words[k]))
            && (r.Some? ==>
                  && (forall k :: i <= k < f && parts[k].Required? ==>
                        parts[k].name in r.value && r.value[parts[k].name] == words[k])
                  && (EndsWithVararg(parts) && f < |words| ==>
                        parts[f].name in r.value && r.value[parts[f].name] == Join(words[f..], " ")))
  {
    MatchFixedSucceeds(parts, words, search, i, acc);
    MatchFixedRequired(parts, words, search, i, acc);
    MatchFixedVararg(parts, words, search, i, acc);
  }

  /** Without optional parts, the loop fails exactly at a path word out of place. */
  lemma {:induction false} MatchFixedSucceeds(parts: seq<Part>, words: seq<string>, search: Search, i: nat,
                                              acc: map<string, string>)
    requires NoOptional(parts) && VarargOnlyLast(parts)
    requires i <= FixedLength(parts) <= |words|
    ensures MatchFrom(parts, words, search, i, i, acc).Some? <==>
            forall k :: i <= k < FixedLength(parts) && parts[k].IsPath() ==> Fits(parts[k], words[k])
    decreases |parts| - i
  {
    var f := FixedLength(parts);
    if i == f {
      MatchFixedEnd(parts, words, search, acc);
    } else {
      assert i < |parts| && i < |words|;
      var word := words[i];
      match parts[i]
      case Path(n) =>
        MatchFixedSucceeds(parts, words, search, i + 1, acc);
      case Choice(_, cs) =>
        MatchFixedSucceeds(parts, words, search, i + 1, acc);
      case Required(n) =>
        MatchFixedSucceeds(parts, words, search, i + 1, acc[n := word]);
      case Vararg(n) =>
        assert false;
      case Optional(n) =>
        assert false;
    }
  }

  /** Without optional parts, a successful loop binds each required part to the word
      at its place. */
  lemma {:induction false} MatchFixedRequired(parts: seq<Part>, words: seq<string>, search: Search, i: nat,
                                              acc: map<string, string>)
    requires NoOptional(parts) && VarargOnlyLast(parts) && DistinctParams(parts)
    requires i <= FixedLength(parts) <= |words|
    ensures var r := MatchFrom(parts, words, search, i, i, acc);
            r.Some? ==>
              forall k :: i <= k < FixedLength(parts) && parts[k].Required? ==>
                parts[k].name in r.value && r.value[parts[k].name] == words[k]
    decreases |parts| - i
  {
    if i < FixedLength(parts) {
      assert i < |parts| && i < |words|;
      var word := words[i];
      match parts[i]
      case Path(n) =>
        MatchFixedRequired(parts, words, search, i + 1, acc);
      case Choice(_, cs) =>
        MatchFixedRequired(parts, words, search, i + 1, acc);
      case Required(n) =>
        MatchFixedRequired(parts, words, search, i + 1, acc[n := word]);
        assert !ParamNamedFrom(parts, i + 1, n);
        MatchKeeps(parts, words, search, i + 1, i + 1, acc[n := word]);
      case Vararg(n) =>
        assert false;
      case Optional(n) =>
        assert false;
    }
  }

  /** Without optional parts, a successful loop binds a trailing vararg to the rest. */
  lemma {:induction false} MatchFixedVararg(parts: seq<Part>, words: seq<string>, search: Search, i: nat,
                                            acc: map<string, string>)
    requires NoOptional(parts) && VarargOnlyLast(parts) && DistinctParams(parts)
    requires i <= FixedLength(parts) <= |words|
    ensures var r := MatchFrom(parts, words, search, i, i, acc);
            var f := FixedLength(parts);
            r.Some? && EndsWithVararg(parts) && f < |words| ==>
              parts[f].name in r.value && r.value[parts[f].name] == Join(words[f..], " ")
    decreases |parts| - i
  {
    var f := FixedLength(parts);
    if i == f {
      MatchFixedEnd(parts, words, search, acc);
    } else {
      assert i < |parts| && i < |words|;
      var word := words[i];
      match parts[i]
      case Path(n) =>
        MatchFixedVararg(parts, words, search, i + 1, acc);
      case Choice(_, cs) =>
        MatchFixedVararg(parts, words, search, i + 1, acc);
      case Required(n) =>
        MatchFixedVararg(parts, words, search, i + 1, acc[n := word]);
      case Vararg(n) =>
        assert false;
      case Optional(n) =>
        assert false;
    }
  }

  /** The end of a fixed match: nothing left, or a trailing vararg taking the rest. */
  lemma MatchFixedEnd(parts: seq<Part>, words: seq<string>, search: Search, acc: map<string, string>)
    requires FixedLength(parts) <= |words|
    ensures var f := FixedLength(parts);
            var r := MatchFrom(parts, words, search, f, f, acc);
            && (EndsWithVararg(parts) && f < |words| ==> r == Some(acc[parts[f].name := Join(words[f..], " ")]))
            && (!(EndsWithVararg(parts) && f < |words|) ==> r == Some(acc))
  {
    var f := FixedLength(parts);
    if EndsWithVararg(parts) && f < |words| {
      var acc' := acc[parts[f].name := Join(words[f..], " ")];
      assert MatchFrom(parts, words, search, f + 1, f, acc') == Some(acc');
    }
  }

  /** parseInput on a pattern without optional parts: the word count must be the
      number of fixed parts, or at least that with a trailing vararg; the path words
      must occur in the input and stand at their places; then every required part is
      bound to its word. */
  lemma FixedPatternMatch(scope: Scope, input: string, search: Search)
    requires |input| >= 1
    requires ValidParts(scope.parts) && NoOptional(scope.parts) && VarargOnlyLast(scope.parts)
    ensures var parts, words := scope.parts, Words(input[1..]);
            var f := FixedLength(parts);
            var r := ParseInputWith(scope, input, search);
            && (r.Some? <==>
                  && f <= |words|
                  && (if EndsWithVararg(parts) then |words| <= INT_MAX else |words| == f)
                  && PathPresent(parts, input)
                  && (forall k :: 0 <= k < f && parts[k].IsPath() ==> Fits(parts[k], words[k])))
            && (r.Some? ==>
                  && (forall k :: 0 <= k < f && parts[k].Required? ==>
                        parts[k].name in r.value && r.value[parts[k].name] == words[k])
                  && (EndsWithVararg(parts) && f < |words| ==>
                        parts[f].name in r.value && r.value[parts[f].name] == Join(words[f..], " "))
                  && (forall key :: key in r.value ==> ParamNamedFrom(parts, 0, key)))
  {
    var parts, words := scope.parts, Words(input[1..]);
    MinFixed(parts);
    DistinctNamesParams(parts);
    if FixedLength(parts) <= |words| {
      MatchFixed(parts, words, search, 0, map[]);
    }
    MatchKeys(parts, words, search, 0, 0, map[]);
  }

  /** Where the search starts only matters to optional parts. */
  lemma {:induction false} SearchOnlyForOptional(parts: seq<Part>, words: seq<string>, pi: nat, wi: nat,
                                                 acc: map<string, string>)
    requires pi <= |parts| && wi <= |words| && NoOptional(parts)
    ensures MatchFrom(parts, words, FromFirstWord, pi, wi, acc) == MatchFrom(parts, words, FromCurrentWord, pi, wi, acc)
    decreases |parts| - pi
  {
    if pi < |parts| && wi < |words| {
      var word := words[wi];
      match parts[pi]
      case Path(n) => SearchOnlyForOptional(parts, words, pi + 1, wi + 1, acc);
      case Choice(_, cs) => SearchOnlyForOptional(parts, words, pi + 1, wi + 1, acc);
      case Required(n) => SearchOnlyForOptional(parts, words, pi + 1, wi + 1, acc[n := word]);
      case Vararg(n) => SearchOnlyForOptional(parts, words, pi + 1, wi, acc[n := Join(words[wi..], " ")]);
      case Optional(n) => assert false;
    }
  }

  // === optional parts ===

  /** The words supply the pattern in full: one word per part, every path word at
      its place, and no word from an optional part up to the next path part looks
      like that path word. */
  predicate Supplied(parts: seq<Part>, words: seq<string>) {
    && |words| == |parts|
    && (forall k :: 0 <= k < |parts| && parts[k].IsPath() ==> Fits(parts[k], words[k]))
    && (forall o, k :: 0 <= o <= k < |parts| && parts[o].Optional? ==>
          var next := NextPathIndex(parts, o);
          k < next < |parts| ==> !Fits(parts[next], words[k]))
  }

  lemma CountRequiredSkips(s: seq<Part>)
    requires |s| > 0 && !s[0].Required?
    ensures CountRequired(s) < |s|
  {
  }

  /** With the search starting at the current word, a fully supplied optional part
      always takes its word. */
  lemma OptionalTakesWord(parts: seq<Part>, words: seq<string>, i: nat)
    requires Supplied(parts, words) && i < |parts| && parts[i].Optional?
    ensures CanUseOptional(parts, words, FromCurrentWord, i, i)
  {
    var next := NextPathIndex(parts, i);
    CountRequiredSkips(parts[i..next]);
    if next < |parts| {
      var at := IndexOfFit(words, parts[next], i);
      assert Fits(parts[next], words[next]);
      assert at == next;
    }
  }

  /** The intended behaviour of optional parts: when the words supply every part of
      a pattern without a vararg, each parameter is bound to the word at its place. */
  lemma SuppliedMatch(parts: seq<Part>, words: seq<string>, i: nat, acc: map<string, string>)
    requires Supplied(parts, words) && DistinctParams(parts) && !HasVararg(parts) && i <= |parts|
    ensures var r := MatchFrom(parts, words, FromCurrentWord, i, i, acc);
            && r.Some?
            && (forall k :: i <= k < |parts| && !parts[k].IsPath() ==>
                  parts[k].name in r.value && r.value[parts[k].name] == words[k])
            && (forall key :: key in acc && !ParamNamedFrom(parts, i, key) ==>
                  key in r.value && r.value[key] == acc[key])
  {
    forall j | 0 <= j < |parts| && parts[j].Optional?
      ensures CanUseOptional(parts, words, FromCurrentWord, j, j)
    {
      OptionalTakesWord(parts, words, j);
    }
    SuppliedMatchFrom(parts, words, i, acc);
    MatchKeeps(parts, words, FromCurrentWord, i, i, acc);
  }

  /** SuppliedMatch by induction on the parts, once every optional part is known to
      take its word. */
  lemma {:induction false} SuppliedMatchFrom(parts: seq<Part>, words: seq<string>, i: nat, acc: map<string, string>)
    requires |words| == |parts| && i <= |parts|
    requires forall k :: 0 <= k < |parts| && parts[k].IsPath() ==> Fits(parts[k], words[k])
    requires forall j :: 0 <= j < |parts| && parts[j].Optional? ==> CanUseOptional(parts, words, FromCurrentWord, j, j)
    requires DistinctParams(parts) && !HasVararg(parts)
    ensures var r := MatchFrom(parts, words, FromCurrentWord, i, i, acc);
            && r.Some?
            && (forall k :: i <= k < |parts| && !parts[k].IsPath() ==>
                  parts[k].name in r.value && r.value[parts[k].name] == words[k])
    decreases |parts| - i
  {
    if i < |parts| {
      var word := words[i];
      match parts[i]
      case Path(n) =>
        SuppliedMatchFrom(parts, words, i + 1, acc);
      case Choice(_, cs) =>
        SuppliedMatchFrom(parts, words, i + 1, acc);
      case Required(n) =>
        SuppliedMatchFrom(parts, words, i + 1, acc[n := word]);
        NamedFromStep(parts, i);
        assert !ParamNamedFrom(parts, i + 1, n);
        MatchKeeps(parts, words, FromCurrentWord, i + 1, i + 1, acc[n := word]);
      case Optional(n) =>
        SuppliedMatchFrom(parts, words, i + 1, acc[n := word]);
        NamedFromStep(parts, i);
        assert !ParamNamedFrom(parts, i + 1, n);
        MatchKeeps(parts, words, FromCurrentWord, i + 1, i + 1, acc[n := word]);
      case Vararg(n) =>
        assert false;
    }
  }

  /** A piece of a string after an offset is a piece of the string. */
  lemma ContainsShift(s: string, off: nat, w: string)
    requires off <= |s| && Contains(s[off..], w)
    ensures Contains(s, w)
  {
    var i :| 0 <= i <= |s[off..]| - |w| && OccursAt(s[off..], w, i);
    assert s[off + i..off + i + |w|] == s[off..][i..i + |w|];
    assert OccursAt(s, w, off + i);
  }

  /** Every piece of split(c) occurs in the string. */
  lemma {:induction false} SplitPiecesOccur(s: string, c: char)
    ensures forall w :: w in Split(s, c) ==> Contains(s, w)
    decreases |s|
  {
    var i := IndexOf(s, c);
    if i == -1 {
      assert OccursAt(s, s, 0);
    } else {
      SplitPiecesOccur(s[i + 1..], c);
      assert OccursAt(s, s[..i], 0);
      forall w | w in Split(s[i + 1..], c)
        ensures Contains(s, w)
      {
        ContainsShift(s, i + 1, w);
      }
    }
  }

  lemma {:induction false} NonBlankSubset(ws: seq<string>)
    ensures forall w :: w in NonBlank(ws) ==> w in ws
  {
    if |ws| > 0 {
      NonBlankSubset(ws[1..]);
    }
  }

  /** Every word of the command occurs in the input. */
  lemma WordsOccur(input: string)
    requires |input| >= 1
    ensures forall w :: w in Words(input[1..]) ==> Contains(input, w)
  {
    SplitPiecesOccur(input[1..], ' ');
    NonBlankSubset(Split(input[1..], ' '));
    forall w | w in Words(input[1..])
      ensures Contains(input, w)
    {
      ContainsShift(input, 1, w);
    }
  }

  /** parseInput binds every parameter of a valid pattern without a vararg to its word
      when the command supplies the pattern in full. */
  lemma SuppliedInput(scope: Scope, input: string)
    requires |input| >= 1 && ValidParts(scope.parts) && !HasVararg(scope.parts)
    requires Supplied(scope.parts, Words(input[1..]))
    ensures var r := ParseInput(scope, input);
            && r.Some?
            && forall k :: 0 <= k < |scope.parts| && !scope.parts[k].IsPath() ==>
                 scope.parts[k].name in r.value && r.value[scope.parts[k].name] == Words(input[1..])[k]
  {
    var parts, words := scope.parts, Words(input[1..]);
    DistinctNamesParams(parts);
    WordsOccur(input);
    forall k | 0 <= k < |parts| && parts[k].IsPath()
      ensures PartPresent(parts[k], input)
    {
      assert words[k] in words;
    }
    SuppliedMatch(parts, words, 0, map[]);
  }

  /** The as-written search from the first word breaks that intent: with the pattern
      "{r} [o] p" and the command "!p x p", the required part takes "p", and the
      search for the path word "p" finds word 0, before the current word, so the
      optional part is skipped and "x" is then read where "p" is expected. */
  lemma OptionalSearchFromFirstWord()
    ensures var parts := [Required("r"), Optional("o"), Path("p")];
            var words := ["p", "x", "p"];
            && Supplied(parts, words)
            && MatchFrom(parts, words, FromFirstWord, 0, 0, map[]) == None
            && MatchFrom(parts, words, FromCurrentWord, 0, 0, map[]) == Some(map["r" := "p", "o" := "x"])
  {
    var parts := [Required("r"), Optional("o"), Path("p")];
    var words := ["p", "x", "p"];
    assert NextPathIndex(parts, 1) == 2;
    assert NextPathIndex(parts, 2) == 2;
    assert IndexOfFit(words, parts[2], 0) == 0;
    assert !CanUseOptional(parts, words, FromFirstWord, 1, 1);
    assert IndexOfFit(words, parts[2], 1) == 2;
    assert CanUseOptional(parts, words, FromCurrentWord, 1, 1);
  }

  // Steps of the counterexample OptionalSearchCommand below. WordsOfThree through
  // ExamplePresent compute the words, parts and guards of the pattern "{r} [o] p"
  // and the command "!p x p" one small fact at a time; they are proof steps for
  // that one example, not properties of the library.

  /** The words of three space-separated words. */
  lemma WordsOfThree(a: string, b: string, c: string)
    requires ' ' !in a && ' ' !in b && ' ' !in c
    requires |a| > 0 && |b| > 0 && |c| > 0
    requires !IsWhitespace(a[0]) && !IsWhitespace(b[0]) && !IsWhitespace(c[0])
    ensures Words(a + " " + (b + " " + c)) == [a, b, c]
  {
    assert Split(a + " " + (b + " " + c), ' ') == [a, b, c] by {
      SplitCons(a, b + " " + c);
      SplitCons(b, c);
      SplitSingle(c, ' ');
      assert [a] + ([b] + [c]) == [a, b, c];
    }
    NonBlankKeeps([a, b, c]);
  }

  /** The first piece of a split is the text before the first separator. */
  lemma SplitCons(a: string, rest: string)
    requires ' ' !in a
    ensures Split(a + " " + rest, ' ') == [a] + Split(rest, ' ')
  {
    SplitAppendLast(a, rest, ' ');
    SplitSingle(a, ' ');
    assert a + " " + rest == a + [' '] + rest;
  }

  lemma {:induction false} NonBlankKeeps(ws: seq<string>)
    requires forall k :: 0 <= k < |ws| ==> |ws[k]| > 0 && !IsWhitespace(ws[k][0])
    ensures NonBlank(ws) == ws
  {
    if |ws| > 0 {
      NonBlankKeeps(ws[1..]);
    }
  }

  lemma ExamplePatternWords()
    ensures Words("{r} [o] p") == ["{r}", "[o]", "p"]
  {
    WordsOfThree("{r}", "[o]", "p");
    assert "{r}" + " " + ("[o]" + " " + "p") == "{r} [o] p";
  }

  lemma ExampleInputWords()
    ensures Words("!p x p"[1..]) == ["p", "x", "p"]
  {
    WordsOfThree("p", "x", "p");
    assert "p" + " " + ("x" + " " + "p") == "!p x p"[1..];
  }

  /** The pattern "{r} [o] p" builds a scope: a required part, an optional part, a path word. */
  lemma ExampleScope()
    ensures NewScope('!', "{r} [o] p") == Ok(Scope('!', "{r} [o] p", [Required("r"), Optional("o"), Path("p")]))
  {
    ExamplePatternWords();
    ExampleClassify();
    ExampleValid();
  }

  lemma ExampleClassify()
    ensures ClassifyAll(["{r}", "[o]", "p"]) == Ok([Required("r"), Optional("o"), Path("p")])
  {
    var ws := ["{r}", "[o]", "p"];
    var parts := [Required("r"), Optional("o"), Path("p")];
    assert "|" !in ws by {
      assert ws[0] != "|" && ws[1] != "|" && ws[2] != "|";
    }
    assert ClassifyPart(ws[0]) == Ok(parts[0]) by { assert ws[0][1..2] == "r"; }
    assert ClassifyPart(ws[1]) == Ok(parts[1]) by { assert ws[1][1..2] == "o"; }
    assert ClassifyPart(ws[2]) == Ok(parts[2]);
    var r := ClassifyAll(ws).value;
    assert r[0] == parts[0] && r[1] == parts[1] && r[2] == parts[2];
    assert r == parts;
  }

  lemma ExampleValid()
    ensures ValidParts([Required("r"), Optional("o"), Path("p")])
  {
    assert Names([Required("r"), Optional("o"), Path("p")]) == ["r", "o", "p"];
  }

  /** The command "!p x p" passes the word-count and path checks of that scope. */
  lemma ExampleGuards()
    ensures var parts := [Required("r"), Optional("o"), Path("p")];
            && Words("!p x p"[1..]) == ["p", "x", "p"]
            && Min(parts) <= 3 <= Max(parts)
            && PathPresent(parts, "!p x p")
  {
    ExampleInputWords();
    ExampleMin();
    ExamplePresent();
  }

  lemma ExampleMin()
    ensures Min([Required("r"), Optional("o"), Path("p")]) == 2
  {
  }

  lemma ExamplePresent()
    ensures PathPresent([Required("r"), Optional("o"), Path("p")], "!p x p")
  {
    assert OccursAt("!p x p", "p", 1);
  }

  /** The same command through parseInput itself: rejected as written, bound as meant. */
  lemma OptionalSearchCommand()
    ensures var scope := Scope('!', "{r} [o] p", [Required("r"), Optional("o"), Path("p")]);
            && ParseInputAsWritten(scope, "!p x p") == None
            && ParseInput(scope, "!p x p") == Some(map["r" := "p", "o" := "x"])
  {
    ExampleGuards();
    OptionalSearchFromFirstWord();
  }
}
