/**
 Which loggers are on (src/logging/logging.ts): the DEBUG variable is split into templates, and a
 module's name is matched against them.
 */
module Logging {

  const STAR := '*'

  // ---- Matching ----

  /** A star stands for any substring, every other character for itself. */
  ghost predicate Matches(search: string, template: string)
    decreases |template|
  {
    if template == "" then search == ""
    else if template[0] == STAR then exists k | 0 <= k <= |search| :: Matches(search[k..], template[1..])
    else search != "" && search[0] == template[0] && Matches(search[1..], template[1..])
  }

  ghost predicate Literal(s: string) {
    STAR !in s
  }

  /** Star-free text must be met letter by letter. */
  lemma {:induction false} LiteralPrefix(literal: string, search: string, template: string)
    requires Literal(literal)
    ensures Matches(search, literal + template) <==> literal <= search && Matches(search[|literal|..], template)
  {
    if literal == "" {
      assert literal + template == template && search[0..] == search;
    } else {
      var t := literal + template;
      assert t[0] == literal[0] && t[1..] == literal[1..] + template;
      if search != "" && search[0] == literal[0] {
        LiteralPrefix(literal[1..], search[1..], template);
        assert literal <= search <==> literal[1..] <= search[1..];
        if literal <= search {
          assert search[|literal|..] == search[1..][|literal[1..]|..];
        }
      }
    }
  }

  /** Only stars match the empty string. */
  lemma {:induction false} EmptySearch(template: string)
    ensures Matches("", template) <==> forall i | 0 <= i < |template| :: template[i] == STAR
  {
    if template != "" && template[0] == STAR {
      EmptySearch(template[1..]);
      assert ""[0..] == "";
      if Matches("", template) {
        forall i | 0 <= i < |template| ensures template[i] == STAR {
          assert i == 0 || template[i] == template[1..][i - 1];
        }
      }
    }
  }

  /** A star before text lets anything stand before it, and a star behind it anything behind it. */
  lemma StarStandsForAnything(search: string, text: string)
    requires '*' !in text
    ensures Matches(search, "*" + text) <==> |text| <= |search| && search[|search| - |text|..] == text
    ensures Matches(search, text + "*") <==> text <= search
    ensures Matches(search, text) <==> search == text
  {
    TextMatchesItself(search, text);
    AfterStar(search, text);
    LiteralPrefix(text, search, "*");
    if text <= search {
      AfterStar(search[|text|..], "");
      assert "*" + "" == "*";
    }
  }

  lemma TextMatchesItself(search: string, text: string)
    requires '*' !in text
    ensures Matches(search, text) <==> search == text
  {
    LiteralPrefix(text, search, "");
    assert text + "" == text;
  }

  lemma AfterStar(search: string, text: string)
    requires '*' !in text
    ensures Matches(search, "*" + text) <==> |text| <= |search| && search[|search| - |text|..] == text
  {
    assert ("*" + text)[1..] == text;
    forall k | 0 <= k <= |search| ensures Matches(search[k..], text) <==> search[k..] == text {
      TextMatchesItself(search[k..], text);
    }
  }

  /** Matching again after a star, from somewhere past `after`. */
  ghost predicate MatchesLater(search: string, after: nat, template: string) {
    exists k | after < k <= |search| :: Matches(search[k..], template)
  }

  /**
   Why the last star is enough: when the text between two stars has been met once, any later way
   to meet it is also a way to let the second star take more.
   */
  lemma LastStarSuffices(search: string, m: nat, s: nat, literal: string, template: string)
    requires m <= s <= |search| && Literal(literal) && |literal| == s - m
    ensures MatchesLater(search, m, literal + [STAR] + template) ==> Matches(search[s..], [STAR] + template)
  {
    var t := [STAR] + template;
    assert literal + [STAR] + template == literal + t && t[1..] == template;
    if MatchesLater(search, m, literal + t) {
      var k :| m < k <= |search| && Matches(search[k..], literal + t);
      LiteralPrefix(literal, search[k..], t);
      var from := k + |literal|;
      assert search[k..][|literal|..] == search[from..];
      var j :| 0 <= j <= |search[from..]| && Matches(search[from..][j..], template);
      assert search[from..][j..] == search[s..][from + j - s..];
    }
  }

  /** Everything the loop's four indices promise, said about the answer still to come. */
  ghost predicate Pending(search: string, template: string, searchIndex: nat, templateIndex: nat, starIndex: int,
      matchIndex: nat)
    requires searchIndex <= |search| && templateIndex <= |template|
  {
    if starIndex == -1 then
      Matches(search, template) <==> Matches(search[searchIndex..], template[templateIndex..])
    else
      && 0 <= starIndex < templateIndex
      && matchIndex <= searchIndex
      && template[starIndex] == STAR
      && Literal(template[starIndex + 1..templateIndex])
      && template[starIndex + 1..templateIndex] == search[matchIndex..searchIndex]
      && (Matches(search, template) <==>
          || Matches(search[searchIndex..], template[templateIndex..])
          || MatchesLater(search, matchIndex, template[starIndex + 1..]))
  }

  lemma StepLiteral(search: string, template: string, s: nat, t: nat, star: int, m: nat)
    requires s < |search| && t < |template| && m <= s
    requires Pending(search, template, s, t, star, m)
    requires template[t] == search[s] && template[t] != STAR
    ensures Pending(search, template, s + 1, t + 1, star, m)
  {
    assert search[s..][1..] == search[s + 1..] && template[t..][1..] == template[t + 1..];
    if star != -1 {
      assert template[star + 1..t + 1] == template[star + 1..t] + [template[t]];
      assert search[m..s + 1] == search[m..s] + [search[s]];
    }
  }

  /** A star takes nothing, or something. */
  lemma StarTakes(search: string, s: nat, rest: string)
    requires s <= |search|
    ensures Matches(search[s..], [STAR] + rest) <==> Matches(search[s..], rest) || MatchesLater(search, s, rest)
  {
    var from := search[s..];
    assert ([STAR] + rest)[1..] == rest && from[0..] == from;
    if Matches(from, [STAR] + rest) {
      var k :| 0 <= k <= |from| && Matches(from[k..], rest);
      assert from[k..] == search[s + k..];
    }
    if MatchesLater(search, s, rest) {
      var k :| s < k <= |search| && Matches(search[k..], rest);
      assert from[k - s..] == search[k..];
    }
  }

  lemma StarReached(search: string, template: string, s: nat, t: nat, star: int, m: nat)
    requires s < |search| && t < |template| && m <= s
    requires Pending(search, template, s, t, star, m)
    requires template[t] == STAR
    ensures Matches(search, template) <==> Matches(search[s..], [STAR] + template[t + 1..])
  {
    hide Matches, MatchesLater, Literal;
    if star == -1 {
      CutAtStar(template, t, t);
    } else {
      StarAgain(search, template, s, t, star, m);
    }
  }

  lemma StarAgain(search: string, template: string, s: nat, t: nat, star: nat, m: nat)
    requires s < |search| && star < t < |template| && m <= s
    requires Literal(template[star + 1..t]) && template[star + 1..t] == search[m..s]
    requires Matches(search, template) <==>
             Matches(search[s..], template[t..]) || MatchesLater(search, m, template[star + 1..])
    requires template[t] == STAR
    ensures Matches(search, template) <==> Matches(search[s..], [STAR] + template[t + 1..])
  {
    hide Matches, MatchesLater, Literal;
    CutAtStar(template, star + 1, t);
    SameLength(template[star + 1..t], search, m, s);
    LastStarSuffices(search, m, s, template[star + 1..t], template[t + 1..]);
  }

  lemma SameLength(literal: string, search: string, m: nat, s: nat)
    requires m <= s <= |search| && literal == search[m..s]
    ensures |literal| == s - m
  {
  }

  lemma CutAtStar(s: string, i: nat, j: nat)
    requires i <= j < |s| && s[j] == STAR
    ensures s[i..] == s[i..j] + [STAR] + s[j + 1..]
    ensures s[j..] == [STAR] + s[j + 1..]
  {
  }

  lemma StepStar(search: string, template: string, s: nat, t: nat, star: int, m: nat)
    requires s < |search| && t < |template| && m <= s
    requires Pending(search, template, s, t, star, m)
    requires template[t] == STAR
    ensures Pending(search, template, s, t + 1, t, s)
  {
    StarReached(search, template, s, t, star, m);
    StarTakes(search, s, template[t + 1..]);
    assert template[t + 1..t + 1] == search[s..s];
  }

  lemma StepBacktrack(search: string, template: string, s: nat, t: nat, star: nat, m: nat)
    requires s < |search| && t <= |template| && m <= s
    requires Pending(search, template, s, t, star, m)
    requires t == |template| || (template[t] != search[s] && template[t] != STAR)
    ensures Pending(search, template, m + 1, star + 1, star, m + 1)
  {
    var rest := template[star + 1..];
    assert !Matches(search[s..], template[t..]);
    assert MatchesLater(search, m, rest) <==> Matches(search[m + 1..], rest) || MatchesLater(search, m + 1, rest);
    assert template[star + 1..star + 1] == search[m + 1..m + 1];
  }

  lemma NoStarToBacktrackTo(search: string, template: string, s: nat, t: nat, m: nat)
    requires s < |search| && t <= |template|
    requires Pending(search, template, s, t, -1, m)
    requires t == |template| || (template[t] != search[s] && template[t] != STAR)
    ensures !Matches(search, template)
  {
  }

  lemma SearchExhausted(search: string, template: string, t: nat, star: int, m: nat)
    requires t <= |template| && m <= |search|
    requires Pending(search, template, |search|, t, star, m)
    ensures Matches(search, template) <==> forall i | t <= i < |template| :: template[i] == STAR
  {
    hide Matches, MatchesLater, Literal;
    if star != -1 {
      SameLength(template[star + 1..t], search, m, |search|);
      NoRoomLater(search, template, t, star, m);
    }
    OnlyStarsLeft(search, template, t);
  }

  lemma OnlyStarsLeft(search: string, template: string, t: nat)
    requires t <= |template|
    ensures Matches(search[|search|..], template[t..]) <==> forall i | t <= i < |template| :: template[i] == STAR
  {
    hide Matches;
    var rest := template[t..];
    assert search[|search|..] == "";
    EmptySearch(rest);
    assert forall i | 0 <= i < |rest| :: rest[i] == template[t + i];
    if forall i | 0 <= i < |rest| :: rest[i] == STAR {
      forall i | t <= i < |template| ensures template[i] == STAR {
        assert template[i] == rest[i - t];
      }
    }
  }

  /** Starting the star-free text any later, it would run past the end of the search. */
  lemma NoRoomLater(search: string, template: string, t: nat, star: nat, m: nat)
    requires star < t <= |template| && m <= |search|
    requires Literal(template[star + 1..t]) && |template[star + 1..t]| == |search| - m
    ensures !MatchesLater(search, m, template[star + 1..])
  {
    var literal := template[star + 1..t];
    assert template[star + 1..] == literal + template[t..];
    forall k | m < k <= |search| ensures !Matches(search[k..], template[star + 1..]) {
      LiteralPrefix(literal, search[k..], template[t..]);
    }
  }

  /** Handles trailing stars in the template. */
  method SkipStars(template: string, from: nat) returns (to: nat)
    requires from <= |template|
    ensures from <= to <= |template|
    ensures forall i | from <= i < to :: template[i] == STAR
    ensures to < |template| ==> template[to] != STAR
  {
    to := from;
    while to < |template| && template[to] == STAR
      invariant from <= to <= |template|
      invariant forall i | from <= i < to :: template[i] == STAR
    {
      to := to + 1;
    }
  }

  /** One pass with a single remembered star, yet exactly the declarative meaning. */
  method MatchesTemplate(search: string, template: string) returns (r: bool)
    ensures r <==> Matches(search, template)
  {
    var searchIndex := 0;
    var templateIndex := 0;
    var starIndex := -1;
    var matchIndex := 0;

    while searchIndex < |search|
      invariant 0 <= matchIndex <= searchIndex <= |search|
      invariant 0 <= templateIndex <= |template|
      invariant -1 <= starIndex < |template|
      invariant starIndex < templateIndex
      invariant Pending(search, template, searchIndex, templateIndex, starIndex, matchIndex)
      decreases |template| - starIndex, |search| - matchIndex, |search| - searchIndex
    {
      if templateIndex < |template| &&
         (template[templateIndex] == search[searchIndex] || template[templateIndex] == STAR)
      {
        if template[templateIndex] == STAR {
          StepStar(search, template, searchIndex, templateIndex, starIndex, matchIndex);
          starIndex := templateIndex;
          matchIndex := searchIndex;
          templateIndex := templateIndex + 1;
        } else {
          StepLiteral(search, template, searchIndex, templateIndex, starIndex, matchIndex);
          searchIndex := searchIndex + 1;
          templateIndex := templateIndex + 1;
        }
      } else if starIndex != -1 {
        StepBacktrack(search, template, searchIndex, templateIndex, starIndex, matchIndex);
        templateIndex := starIndex + 1;
        matchIndex := matchIndex + 1;
        searchIndex := matchIndex;
      } else {
        NoStarToBacktrackTo(search, template, searchIndex, templateIndex, matchIndex);
        return false;
      }
    }
    SearchExhausted(search, template, templateIndex, starIndex, matchIndex);
    templateIndex := SkipStars(template, templateIndex);
    r := templateIndex == |template|;
  }

  // ---- The DEBUG variable ----

  /** What `\s` matches and `trim` removes. */
  predicate IsSpace(c: char) {
    || c == ' ' || '\t' <= c <= '\r'
    || c == '\U{A0}' || c == '\U{1680}' || '\U{2000}' <= c <= '\U{200A}' || c == '\U{2028}' || c == '\U{2029}'
    || c == '\U{202F}' || c == '\U{205F}' || c == '\U{3000}' || c == '\U{FEFF}'
  }

  predicate IsSeparator(c: char) {
    c == ',' || IsSpace(c)
  }

  predicate InWord(c: char) {
    !IsSeparator(c)
  }

  predicate NotComma(c: char) {
    c != ','
  }

  /** Length of the longest prefix whose characters are all in, or all out of, a class. */
  function Run(s: string, inClass: char -> bool): (n: nat)
    ensures n <= |s|
    ensures forall i | 0 <= i < n :: inClass(s[i])
    ensures n < |s| ==> !inClass(s[n])
  {
    if s == "" || !inClass(s[0]) then 0 else 1 + Run(s[1..], inClass)
  }

  function TrimStart(s: string): string {
    s[Run(s, IsSpace)..]
  }

  function TrimEnd(s: string): string {
    if s != "" && IsSpace(s[|s| - 1]) then TrimEnd(s[..|s| - 1]) else s
  }

  /** `replace(/\s+/g, ",")`: every longest run of spaces becomes one comma. */
  function CommasForSpaces(s: string): string {
    if s == "" then ""
    else if IsSpace(s[0]) then "," + CommasForSpaces(s[Run(s, IsSpace)..])
    else [s[0]] + CommasForSpaces(s[1..])
  }

  /** `split(",")`. */
  function Split(s: string): seq<string> {
    var n := Run(s, NotComma);
    if n == |s| then [s] else [s[..n]] + Split(s[n + 1..])
  }

  /** `filter(Boolean)`. */
  function NonEmpty(parts: seq<string>): seq<string> {
    if parts == [] then []
    else (if parts[0] == "" then [] else [parts[0]]) + NonEmpty(parts[1..])
  }

  /** The text between separators: commas or white space, in any number and mixture. */
  function Words(s: string): seq<string> {
    var n := Run(s, InWord);
    if s == "" then []
    else if n == 0 then Words(s[1..])
    else [s[..n]] + Words(s[n..])
  }

  lemma RunIs(s: string, inClass: char -> bool, n: nat)
    requires n <= |s|
    requires forall i | 0 <= i < n :: inClass(s[i])
    requires n < |s| ==> !inClass(s[n])
    ensures Run(s, inClass) == n
  {
  }

  lemma LeadingSeparator(sep: char, s: string)
    requires IsSeparator(sep)
    ensures Words([sep] + s) == Words(s)
  {
    assert ([sep] + s)[1..] == s;
  }

  lemma LeadingWord(word: string, s: string)
    requires word != "" && forall i | 0 <= i < |word| :: InWord(word[i])
    requires s != "" ==> IsSeparator(s[0])
    ensures Words(word + s) == [word] + Words(s)
  {
    RunIs(word + s, InWord, |word|);
    assert (word + s)[..|word|] == word && (word + s)[|word|..] == s;
  }

  lemma {:induction false} TrailingSeparator(s: string, sep: char)
    requires IsSeparator(sep)
    ensures Words(s + [sep]) == Words(s)
    decreases |s|
  {
    var n := Run(s, InWord);
    if s == "" {
      assert s + [sep] == [sep] + "";
      LeadingSeparator(sep, "");
    } else if n == 0 {
      var rest := s[1..];
      TrailingSeparator(rest, sep);
      assert s == [s[0]] + rest && s + [sep] == [s[0]] + (rest + [sep]);
      LeadingSeparator(s[0], rest);
      LeadingSeparator(s[0], rest + [sep]);
    } else {
      var word, rest := s[..n], s[n..];
      TrailingSeparator(rest, sep);
      assert s == word + rest && s + [sep] == word + (rest + [sep]);
      LeadingWord(word, rest);
      LeadingWord(word, rest + [sep]);
    }
  }

  /** A comma or any white space ends a word. */
  lemma {:induction false} SeparatorSplits(a: string, sep: char, b: string)
    requires
      || sep in {',', ' ', '\t', '\n', '\U{B}', '\U{C}', '\r', '\U{A0}', '\U{1680}'} || '\U{2000}' <= sep <= '\U{200A}'
      || sep in {'\U{2028}', '\U{2029}', '\U{202F}', '\U{205F}', '\U{3000}', '\U{FEFF}'}
    ensures Words(a + [sep] + b) == Words(a) + Words(b)
    decreases |a|
  {
    hide Words;
    assert IsSeparator(sep);
    assert a + [sep] + b == a + ([sep] + b);
    SeparatorStep(a, sep, b);
    LeadingSeparator(sep, b);
    if a != "" {
      var n := Run(a, InWord);
      var rest := if n == 0 then a[1..] else a[n..];
      SeparatorSplits(rest, sep, b);
      assert rest + [sep] + b == rest + ([sep] + b);
      if n > 0 {
        LeadingWord(a[..n], rest);
        LeadingWord(a[..n], rest + ([sep] + b));
      } else {
        LeadingSeparator(a[0], a[1..]);
        LeadingSeparator(a[0], a[1..] + ([sep] + b));
      }
    }
  }

  lemma SeparatorStep(a: string, sep: char, b: string)
    ensures Words("") == []
    ensures a == "" ==> a + ([sep] + b) == [sep] + b
    ensures a != "" ==> a == [a[0]] + a[1..] && a + ([sep] + b) == [a[0]] + (a[1..] + ([sep] + b))
    ensures
      var n := Run(a, InWord);
      a == a[..n] + a[n..] && a + ([sep] + b) == a[..n] + (a[n..] + ([sep] + b))
  {
    assert Words("") == [];
    hide Words, Run, InWord;
    CutAt(a, [sep] + b, Run(a, InWord));
    if a != "" {
      CutAt(a, [sep] + b, 1);
      assert a[..1] == [a[0]];
    }
  }

  lemma CutAt(a: string, b: string, n: nat)
    requires n <= |a|
    ensures a == a[..n] + a[n..] && a + b == a[..n] + (a[n..] + b)
  {
  }

  /** Printable characters but the comma and the blank make one word. */
  lemma TextIsOneWord(text: string)
    requires text != "" && forall i | 0 <= i < |text| :: ' ' < text[i] < '\U{A0}' && text[i] != ','
    ensures Words(text) == [text]
  {
    LeadingWord(text, "");
    assert text + "" == text;
  }

  lemma WordsOfOne(s: string)
    requires forall i | 0 <= i < |s| :: InWord(s[i])
    ensures Words(s) == NonEmpty([s])
  {
    RunIs(s, InWord, |s|);
    assert s[..|s|] == s && s[|s|..] == "";
  }

  lemma WordThenComma(word: string, rest: string)
    requires forall i | 0 <= i < |word| :: InWord(word[i])
    ensures Words(word + ([','] + rest)) == NonEmpty([word]) + Words(rest)
  {
    hide Words, NonEmpty, InWord;
    var s := [','] + rest;
    LeadingSeparator(',', rest);
    NonEmptyOne(word);
    if word == "" {
      assert word + s == s && [] + Words(rest) == Words(rest);
    } else {
      LeadingWord(word, s);
    }
  }

  lemma NonEmptyOne(part: string)
    ensures NonEmpty([part]) == if part == "" then [] else [part]
  {
    assert [part][1..] == [];
  }

  lemma NonEmptyHead(part: string, rest: seq<string>)
    ensures NonEmpty([part] + rest) == NonEmpty([part]) + NonEmpty(rest)
  {
    assert ([part] + rest)[1..] == rest && [part][1..] == [];
  }

  lemma {:induction false} SplitWords(s: string)
    requires forall i | 0 <= i < |s| :: !IsSpace(s[i])
    ensures NonEmpty(Split(s)) == Words(s)
    decreases |s|
  {
    var n := Run(s, NotComma);
    if n == |s| {
      WordsOfOne(s);
      assert s[..n] == s;
    } else {
      SplitWords(s[n + 1..]);
      NonEmptyHead(s[..n], Split(s[n + 1..]));
      WordThenComma(s[..n], s[n + 1..]);
      SplitAtComma(s, n);
    }
  }

  lemma SplitAtComma(s: string, n: nat)
    requires n < |s| && s[n] == ','
    ensures s == s[..n] + ([','] + s[n + 1..])
  {
  }

  lemma {:induction false} DropSpaces(s: string, n: nat)
    requires n <= |s| && forall i | 0 <= i < n :: IsSpace(s[i])
    ensures Words(s[n..]) == Words(s)
  {
    if n > 0 {
      DropSpaces(s, n - 1);
      assert s[n - 1..] == [s[n - 1]] + s[n..];
      LeadingSeparator(s[n - 1], s[n..]);
    } else {
      assert s[0..] == s;
    }
  }

  lemma {:induction false} CommasAreNotSpaces(s: string)
    ensures forall i | 0 <= i < |CommasForSpaces(s)| :: !IsSpace(CommasForSpaces(s)[i])
    decreases |s|
  {
    if s != "" {
      CommasAreNotSpaces(if IsSpace(s[0]) then s[Run(s, IsSpace)..] else s[1..]);
    }
  }

  lemma {:induction false} CommasKeepWords(s: string)
    ensures Words(CommasForSpaces(s)) == Words(s)
    decreases |s|
  {
    if s == "" {
    } else if IsSpace(s[0]) {
      var n := Run(s, IsSpace);
      CommasKeepWords(s[n..]);
      LeadingSeparator(',', CommasForSpaces(s[n..]));
      DropSpaces(s, n);
    } else if s[0] == ',' {
      CommasKeepWords(s[1..]);
      LeadingSeparator(',', s[1..]);
      LeadingSeparator(',', CommasForSpaces(s[1..]));
      assert s == [','] + s[1..];
    } else {
      var n := Run(s, InWord);
      CommasKeepWords(s[n..]);
      LeadingWordStays(s, n);
    }
  }

  lemma LeadingWordStays(s: string, n: nat)
    requires n > 0 && n == Run(s, InWord)
    ensures Words(CommasForSpaces(s)) == [s[..n]] + Words(CommasForSpaces(s[n..]))
  {
    CommasAfterWord(s, n);
    LeadingWord(s[..n], CommasForSpaces(s[n..]));
  }

  lemma {:induction false} CommasAfterWord(s: string, n: nat)
    requires n <= |s| && forall i | 0 <= i < n :: !IsSpace(s[i])
    ensures CommasForSpaces(s) == s[..n] + CommasForSpaces(s[n..])
  {
    if n == 0 {
      assert s[0..] == s;
    } else {
      CommasAfterWord(s[1..], n - 1);
      assert s[1..][..n - 1] == s[1..n] && s[1..][n - 1..] == s[n..];
    }
  }

  lemma {:induction false} TrimEndKeepsWords(s: string)
    ensures Words(TrimEnd(s)) == Words(s)
  {
    if s != "" && IsSpace(s[|s| - 1]) {
      var init := s[..|s| - 1];
      TrimEndKeepsWords(init);
      assert s == init + [s[|s| - 1]];
      TrailingSeparator(init, s[|s| - 1]);
    }
  }

  function Tokens(modules: string): seq<string> {
    NonEmpty(Split(CommasForSpaces(TrimEnd(TrimStart(modules)))))
  }

  /** Trimming, replacing, splitting and filtering together find the words. */
  lemma TokensAreWords(modules: string)
    ensures Tokens(modules) == Words(modules)
  {
    DropSpaces(modules, Run(modules, IsSpace));
    TrimEndKeepsWords(TrimStart(modules));
    var trimmed := TrimEnd(TrimStart(modules));
    CommasKeepWords(trimmed);
    CommasAreNotSpaces(trimmed);
    SplitWords(CommasForSpaces(trimmed));
  }

  /** What the DEBUG value says about a module: some word matches it and no "-word" does. */
  ghost predicate Enabled(module_: string, modules: string) {
    && (forall w | w in Words(modules) && "-" <= w :: !Matches(module_, w[1..]))
    && (exists w | w in Words(modules) :: !("-" <= w) && Matches(module_, w))
  }

  /** The templates that switch modules on, in order. */
  function Names(words: seq<string>): seq<string> {
    if words == [] then []
    else
      var init, last := words[..|words| - 1], words[|words| - 1];
      if "-" <= last then Names(init) else Names(init) + [last]
  }

  /** The templates that switch modules off, without their dash. */
  function Skips(words: seq<string>): seq<string> {
    if words == [] then []
    else
      var init, last := words[..|words| - 1], words[|words| - 1];
      if "-" <= last then Skips(init) + [last[1..]] else Skips(init)
  }

  lemma {:induction false} NamesMembers(words: seq<string>)
    ensures forall w :: w in Names(words) <==> w in words && !("-" <= w)
  {
    if words != [] {
      NamesMembers(words[..|words| - 1]);
      assert words == words[..|words| - 1] + [words[|words| - 1]];
    }
  }

  lemma {:induction false} SkipsMembers(words: seq<string>)
    ensures forall w :: w in Skips(words) <==> "-" + w in words
  {
    if words != [] {
      var init, last := words[..|words| - 1], words[|words| - 1];
      SkipsMembers(init);
      assert words == init + [last];
      if "-" <= last {
        assert last == "-" + last[1..];
        assert forall w :: ("-" + w)[1..] == w;
      } else {
        assert forall w :: "-" <= "-" + w;
      }
    }
  }

  lemma {:induction false} NoEmptyToken(parts: seq<string>)
    ensures "" !in NonEmpty(parts)
  {
    if parts != [] {
      NoEmptyToken(parts[1..]);
    }
  }

  class NameSpaceCache {
    var modules: string
    var names: seq<string>
    var skips: seq<string>
    var loaded: bool

    ghost predicate Valid()
      reads this
    {
      loaded ==> names == Names(Words(modules)) && skips == Skips(Words(modules))
    }

    constructor ()
      ensures Valid() && !loaded
    {
      modules := "";
      names := [];
      skips := [];
      loaded := false;
    }

    method LoadEnabledModules(modules: string)
      requires Valid()
      modifies this
      ensures Valid() && loaded && this.modules == modules
    {
      if loaded && this.modules == modules {
        return;
      }
      this.modules := modules;
      names := [];
      skips := [];
      var split := Tokens(modules);
      TokensAreWords(modules);
      NoEmptyToken(Split(CommasForSpaces(TrimEnd(TrimStart(modules)))));
      Classify(split);
      loaded := true;
    }

    /** The loop over the words. */
    method Classify(split: seq<string>)
      requires "" !in split && names == [] && skips == []
      modifies this`names, this`skips
      ensures names == Names(split) && skips == Skips(split)
    {
      for i := 0 to |split|
        invariant names == Names(split[..i]) && skips == Skips(split[..i])
      {
        var mod := split[i];
        assert mod in split;
        assert split[..i + 1][..i] == split[..i];
        if mod[0] == '-' {
          skips := skips + [mod[1..]];
        } else {
          names := names + [mod];
        }
      }
      assert split[..|split|] == split;
    }

    method ModuleEnabled(module_: string) returns (r: bool)
      requires Valid() && loaded
      ensures r <==> Enabled(module_, modules)
    {
      NamesMembers(Words(modules));
      SkipsMembers(Words(modules));
      for i := 0 to |skips|
        invariant forall k | 0 <= k < i :: !Matches(module_, skips[k])
      {
        var skip := MatchesTemplate(module_, skips[i]);
        if skip {
          assert skips[i] in skips && ("-" + skips[i])[1..] == skips[i];
          return false;
        }
      }
      forall w | w in Words(modules) && "-" <= w ensures !Matches(module_, w[1..]) {
        assert w == "-" + w[1..];
        assert w[1..] in skips;
      }
      for i := 0 to |names|
        invariant forall k | 0 <= k < i :: !Matches(module_, names[k])
      {
        var match_ := MatchesTemplate(module_, names[i]);
        if match_ {
          assert names[i] in names;
          return true;
        }
      }
      r := false;
    }
  }
}
