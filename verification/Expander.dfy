/**
  * Query expansion by synonym rules. Letter classes and case folding are parameters: what is proved holds
  * for every choice of them.
  */
module Expander {
  import opened Strings

  /** `fold` is lower case then canonical decomposition; marks are skipped; words are made of letters and digits. */
  datatype Unicode = Unicode(fold: string -> string, isMark: char -> bool, isWord: char -> bool)

  datatype Rule = Rule(pattern: seq<string>, antiPatterns: seq<string>, expansion: string)

  // ---- What each step means ----

  function Canonical(query: string): string {
    Join(Fields(Trim(query)), " ")
  }

  /** A field that has a meaning of its own in a web search: OR, or a leading minus sign. */
  predicate IsOperator(field: string) {
    field == "OR" || (field != "" && field[0] == '-')
  }

  predicate IsExplicit(query: string) {
    '"' in query || exists i :: 0 <= i < |Fields(query)| && IsOperator(Fields(query)[i])
  }

  function Tokens(u: Unicode, text: string): seq<string> {
    Split(u.fold(text), "", u.isWord, u.isMark)
  }

  predicate OccursAt(tokens: seq<string>, sequence: seq<string>, i: int) {
    0 <= i <= |tokens| - |sequence| && tokens[i..i + |sequence|] == sequence
  }

  /** The sequence is not empty and occurs contiguously. */
  predicate Contains(tokens: seq<string>, sequence: seq<string>) {
    sequence != [] && exists i :: 0 <= i <= |tokens| - |sequence| && OccursAt(tokens, sequence, i)
  }

  /** The tokens are the sequence, with something before it and something after it. */
  lemma ContainsMeans(tokens: seq<string>, sequence: seq<string>)
    ensures Contains(tokens, sequence) <==>
              sequence != [] && exists before, after :: tokens == before + sequence + after
  {
    if Contains(tokens, sequence) {
      var i :| 0 <= i <= |tokens| - |sequence| && OccursAt(tokens, sequence, i);
      assert tokens == tokens[..i] + sequence + tokens[i + |sequence|..];
    }
    if before, after :| tokens == before + sequence + after {
      assert OccursAt(tokens, sequence, |before|);
    }
  }

  predicate Matches(u: Unicode, tokens: seq<string>, pattern: seq<string>) {
    pattern != [] && forall i :: 0 <= i < |pattern| ==> Contains(tokens, Tokens(u, pattern[i]))
  }

  predicate HasAnti(u: Unicode, tokens: seq<string>, antiPatterns: seq<string>) {
    exists i :: 0 <= i < |antiPatterns| && Contains(tokens, Tokens(u, antiPatterns[i]))
  }

  predicate Applies(u: Unicode, tokens: seq<string>, rule: Rule) {
    Matches(u, tokens, rule.pattern) && !HasAnti(u, tokens, rule.antiPatterns)
  }

  /** The expansions of the rules that apply, each where it first comes up. */
  function Expansions(u: Unicode, tokens: seq<string>, rules: seq<Rule>): seq<string> {
    if rules == [] then []
    else
      var before, rule := Expansions(u, tokens, rules[..|rules| - 1]), rules[|rules| - 1];
      if Applies(u, tokens, rule) && rule.expansion !in before then before + [rule.expansion] else before
  }

  function QueryExpansions(u: Unicode, rules: seq<Rule>, query: string): seq<string> {
    if IsExplicit(Canonical(query)) then [] else Expansions(u, Tokens(u, Canonical(query)), rules)
  }

  function Expanded(u: Unicode, rules: seq<Rule>, query: string): string {
    var expansions := QueryExpansions(u, rules, query);
    if expansions == [] then Canonical(query) else Canonical(query) + " OR " + Join(expansions, " OR ")
  }

  // ---- The code ----

  method HasExplicitWebsearchSyntax(searchQuery: string) returns (r: bool)
    ensures r == IsExplicit(searchQuery)
    ensures r <==> '"' in searchQuery
                   || exists i :: 0 <= i < |Fields(searchQuery)|
                                  && (Fields(searchQuery)[i] == "OR"
                                      || (Fields(searchQuery)[i] != "" && Fields(searchQuery)[i][0] == '-'))
  {
    if '"' in searchQuery {
      return true;
    }
    var fields := Fields(searchQuery);
    for n := 0 to |fields|
      invariant forall i :: 0 <= i < n ==> !IsOperator(fields[i])
    {
      if fields[n] == "OR" || (|fields[n]| > 0 && fields[n][0] == '-') {
        return true;
      }
    }
    return false;
  }

  method TokenizeForMatch(u: Unicode, searchText: string) returns (tokens: seq<string>)
    ensures tokens == Tokens(u, searchText)
  {
    var normalizedText := u.fold(searchText);
    var currentToken := "";
    tokens := [];
    for n := 0 to |normalizedText|
      invariant tokens + Split(normalizedText[n..], currentToken, u.isWord, u.isMark) == Tokens(u, searchText)
    {
      var character, rest := normalizedText[n], normalizedText[n..];
      assert rest[0] == character && rest[1..] == normalizedText[n + 1..];
      if u.isMark(character) {
        continue;
      }
      if u.isWord(character) {
        currentToken := currentToken + [character];
        continue;
      }
      ghost var after := Split(rest[1..], "", u.isWord, u.isMark);
      assert tokens + (Ended(currentToken) + after) == (tokens + Ended(currentToken)) + after;
      if |currentToken| > 0 {
        tokens := tokens + [currentToken];
        currentToken := "";
      }
    }
    if |currentToken| > 0 {
      tokens := tokens + [currentToken];
    }
  }

  method ContainsTokenSequence(tokens: seq<string>, sequence: seq<string>) returns (r: bool)
    ensures r == Contains(tokens, sequence)
    ensures r <==> sequence != [] && exists before, after :: tokens == before + sequence + after
  {
    ContainsMeans(tokens, sequence);
    if |sequence| == 0 || |sequence| > |tokens| {
      return false;
    }
    for startIndex := 0 to |tokens| - |sequence| + 1
      invariant forall i :: 0 <= i < startIndex ==> !OccursAt(tokens, sequence, i)
    {
      var matches := true;
      var sequenceIndex := 0;
      while sequenceIndex < |sequence|
        invariant 0 <= sequenceIndex <= |sequence|
        invariant matches ==> tokens[startIndex..startIndex + sequenceIndex] == sequence[..sequenceIndex]
        invariant !matches ==> !OccursAt(tokens, sequence, startIndex)
      {
        if tokens[startIndex + sequenceIndex] != sequence[sequenceIndex] {
          assert tokens[startIndex..startIndex + |sequence|][sequenceIndex] != sequence[sequenceIndex];
          matches := false;
          break;
        }
        assert sequence[..sequenceIndex + 1] == sequence[..sequenceIndex] + [sequence[sequenceIndex]];
        assert tokens[startIndex..startIndex + sequenceIndex + 1]
            == tokens[startIndex..startIndex + sequenceIndex] + [tokens[startIndex + sequenceIndex]];
        sequenceIndex := sequenceIndex + 1;
      }
      if matches {
        assert OccursAt(tokens, sequence, startIndex);
        return true;
      }
    }
    return false;
  }

  method MatchesPattern(u: Unicode, queryTokens: seq<string>, pattern: seq<string>) returns (r: bool)
    ensures r == Matches(u, queryTokens, pattern)
  {
    if |pattern| == 0 {
      return false;
    }
    for n := 0 to |pattern|
      invariant forall i :: 0 <= i < n ==> Contains(queryTokens, Tokens(u, pattern[i]))
    {
      var sequence := TokenizeForMatch(u, pattern[n]);
      var contained := ContainsTokenSequence(queryTokens, sequence);
      if !contained {
        return false;
      }
    }
    return true;
  }

  method HasAntiPattern(u: Unicode, queryTokens: seq<string>, antiPatterns: seq<string>) returns (r: bool)
    ensures r == HasAnti(u, queryTokens, antiPatterns)
  {
    for n := 0 to |antiPatterns|
      invariant forall i :: 0 <= i < n ==> !Contains(queryTokens, Tokens(u, antiPatterns[i]))
    {
      var sequence := TokenizeForMatch(u, antiPatterns[n]);
      var contained := ContainsTokenSequence(queryTokens, sequence);
      if contained {
        return true;
      }
    }
    return false;
  }

  method Expand(u: Unicode, synonymRules: seq<Rule>, query: string) returns (r: string)
    ensures r == Expanded(u, synonymRules, query)
  {
    var canonicalQuery := Join(Fields(Trim(query)), " ");
    var isExplicit := HasExplicitWebsearchSyntax(canonicalQuery);
    if isExplicit {
      return canonicalQuery;
    }
    var queryTokens := TokenizeForMatch(u, canonicalQuery);
    if |queryTokens| == 0 {
      NothingMatchesNoTokens(u, synonymRules);
      return canonicalQuery;
    }
    var expansions: seq<string> := [];
    var seenExpansions: set<string> := {};
    for n := 0 to |synonymRules|
      invariant expansions == Expansions(u, queryTokens, synonymRules[..n])
      invariant forall e :: e in seenExpansions <==> e in expansions
    {
      var rule := synonymRules[n];
      assert synonymRules[..n + 1][..n] == synonymRules[..n];
      var matches := MatchesPattern(u, queryTokens, rule.pattern);
      var hasAnti := HasAntiPattern(u, queryTokens, rule.antiPatterns);
      if !matches || hasAnti {
        continue;
      }
      if rule.expansion in seenExpansions {
        continue;
      }
      seenExpansions := seenExpansions + {rule.expansion};
      expansions := expansions + [rule.expansion];
    }
    assert synonymRules[..|synonymRules|] == synonymRules;
    if |expansions| == 0 {
      return canonicalQuery;
    }
    return canonicalQuery + " OR " + Join(expansions, " OR ");
  }

  lemma {:induction false} NothingMatchesNoTokens(u: Unicode, rules: seq<Rule>)
    ensures Expansions(u, [], rules) == []
  {
    if rules != [] {
      NothingMatchesNoTokens(u, rules[..|rules| - 1]);
      var rule := rules[|rules| - 1];
      if rule.pattern != [] {
        assert !Contains([], Tokens(u, rule.pattern[0]));
      }
    }
  }

  // ---- Each expansion once, if and only if a rule asks for it ----

  lemma {:induction false} ExpansionsAre(u: Unicode, tokens: seq<string>, rules: seq<Rule>, e: string)
    ensures e in Expansions(u, tokens, rules) <==>
            exists i :: 0 <= i < |rules| && Applies(u, tokens, rules[i]) && rules[i].expansion == e
  {
    if rules != [] {
      ExpansionsAre(u, tokens, rules[..|rules| - 1], e);
      assert forall i :: 0 <= i < |rules| - 1 ==> rules[..|rules| - 1][i] == rules[i];
    }
  }

  lemma {:induction false} ExpansionsDiffer(u: Unicode, tokens: seq<string>, rules: seq<Rule>)
    ensures forall i, j :: 0 <= i < j < |Expansions(u, tokens, rules)| ==>
              Expansions(u, tokens, rules)[i] != Expansions(u, tokens, rules)[j]
  {
    if rules != [] {
      ExpansionsDiffer(u, tokens, rules[..|rules| - 1]);
    }
  }

  /** The tokens of the text occur among those of the query, next to one another and in order. */
  ghost predicate IsIn(u: Unicode, text: string, tokens: seq<string>) {
    var sequence := Tokens(u, text);
    sequence != [] && exists before, after :: tokens == before + sequence + after
  }

  lemma ContainsIsIn(u: Unicode, text: string, tokens: seq<string>)
    ensures Contains(tokens, Tokens(u, text)) <==> IsIn(u, text, tokens)
  {
    ContainsMeans(tokens, Tokens(u, text));
  }

  /** A rule applies when it has patterns, all of them are in the query, and none of its anti-patterns is. */
  lemma AppliesMeans(u: Unicode, tokens: seq<string>, rule: Rule)
    ensures Applies(u, tokens, rule) <==>
              && rule.pattern != []
              && (forall p :: p in rule.pattern ==> IsIn(u, p, tokens))
              && (forall p :: p in rule.antiPatterns ==> !IsIn(u, p, tokens))
  {
    forall p {
      ContainsIsIn(u, p, tokens);
    }
    forall i | 0 <= i < |rule.pattern|
      ensures rule.pattern[i] in rule.pattern
    {
    }
    forall i | 0 <= i < |rule.antiPatterns|
      ensures rule.antiPatterns[i] in rule.antiPatterns
    {
    }
  }

  /** One anti-pattern in the query is enough to keep a rule out, whatever its patterns. */
  lemma AntiPatternExcludes(u: Unicode, tokens: seq<string>, rules: seq<Rule>, e: string)
    requires forall rule :: rule in rules && rule.expansion == e ==>
               exists p :: p in rule.antiPatterns && IsIn(u, p, tokens)
    ensures e !in Expansions(u, tokens, rules)
  {
    ExpansionsAre(u, tokens, rules, e);
    forall i | 0 <= i < |rules| && rules[i].expansion == e
      ensures !Applies(u, tokens, rules[i])
    {
      assert rules[i] in rules;
      AppliesMeans(u, tokens, rules[i]);
    }
  }

  /** Only the folded text matters: case and marks, which folding removes or splits off, change no match. */
  lemma EqualFoldsMatchAlike(u: Unicode, rules: seq<Rule>, a: string, b: string)
    requires u.fold(Canonical(a)) == u.fold(Canonical(b)) && IsExplicit(Canonical(a)) == IsExplicit(Canonical(b))
    ensures Tokens(u, Canonical(a)) == Tokens(u, Canonical(b))
    ensures QueryExpansions(u, rules, a) == QueryExpansions(u, rules, b)
  {
  }

  /** A mark makes no difference to the tokens, wherever it stands. */
  lemma {:induction false} MarksAreSkipped(
    s: string, m: char, t: string, current: string, keep: char -> bool, skip: char -> bool)
    requires skip(m)
    ensures Split(s + [m] + t, current, keep, skip) == Split(s + t, current, keep, skip)
    decreases |s|
  {
    if s == "" {
      assert s + t == t && (s + [m] + t)[1..] == t;
    } else {
      assert (s + [m] + t)[1..] == s[1..] + [m] + t && (s + t)[1..] == s[1..] + t;
      var next := if skip(s[0]) then current else if keep(s[0]) then current + [s[0]] else "";
      MarksAreSkipped(s[1..], m, t, next, keep, skip);
    }
  }

  /** Where an expansion stands in the list is where the first rule that asks for it stands in the table. */
  ghost predicate IsFirstRule(u: Unicode, tokens: seq<string>, rules: seq<Rule>, e: string, i: nat) {
    && i < |rules| && Applies(u, tokens, rules[i]) && rules[i].expansion == e
    && forall j :: 0 <= j < i && Applies(u, tokens, rules[j]) ==> rules[j].expansion != e
  }

  lemma {:induction false} ExpansionsInOrder(u: Unicode, tokens: seq<string>, rules: seq<Rule>) returns (at: seq<nat>)
    ensures var es := Expansions(u, tokens, rules);
            && |at| == |es| && (forall k :: 0 <= k < |es| ==> IsFirstRule(u, tokens, rules, es[k], at[k]))
            && (forall k, l :: 0 <= k < l < |at| ==> at[k] < at[l])
  {
    if rules == [] {
      at := [];
    } else {
      var last := |rules| - 1;
      var before := Expansions(u, tokens, rules[..last]);
      at := ExpansionsInOrder(u, tokens, rules[..last]);
      forall k | 0 <= k < |before|
        ensures IsFirstRule(u, tokens, rules, before[k], at[k])
      {
        assert IsFirstRule(u, tokens, rules[..last], before[k], at[k]);
      }
      if Applies(u, tokens, rules[last]) && rules[last].expansion !in before {
        NewIsFirst(u, tokens, rules);
        at := at + [last];
      }
    }
  }

  lemma NewIsFirst(u: Unicode, tokens: seq<string>, rules: seq<Rule>)
    requires rules != [] && Applies(u, tokens, rules[|rules| - 1])
    requires rules[|rules| - 1].expansion !in Expansions(u, tokens, rules[..|rules| - 1])
    ensures IsFirstRule(u, tokens, rules, rules[|rules| - 1].expansion, |rules| - 1)
  {
    var last := |rules| - 1;
    ExpansionsAre(u, tokens, rules[..last], rules[last].expansion);
    forall j | 0 <= j < last && Applies(u, tokens, rules[j])
      ensures rules[j].expansion != rules[last].expansion
    {
      assert rules[..last][j] == rules[j];
    }
  }

  // ---- The branches of an OR ----

  /** The fields of the branches, with an OR between one and the next. */
  function OrWords(branches: seq<seq<string>>): seq<string> {
    if branches == [] then []
    else if |branches| == 1 then branches[0]
    else branches[0] + ["OR"] + OrWords(branches[1..])
  }

  /** The search reads the word in any case. */
  predicate IsOr(word: string) {
    |word| == 2 && word[0] in {'o', 'O'} && word[1] in {'r', 'R'}
  }

  /**
    * How a web search reads a list of fields, with `current` the branch read so far: an or starts a new
    * branch if it stands between two operands, and is a word like any other at the start or the end.
    */
  function Read(words: seq<string>, current: seq<string>): seq<seq<string>> {
    if words == [] then [current]
    else if IsOr(words[0]) && current != [] && |words| > 1 then [current] + Read(words[1..], [])
    else Read(words[1..], current + [words[0]])
  }

  function Branches(words: seq<string>): seq<seq<string>> {
    Read(words, [])
  }

  /** The last word is an or that would stand between two operands, were there one more. */
  predicate Dangles(words: seq<string>, current: seq<string>) {
    if words == [] then false
    else if IsOr(words[0]) && current != [] then |words| == 1 || Dangles(words[1..], [])
    else Dangles(words[1..], current + [words[0]])
  }

  lemma {:induction false} OneBranch(words: seq<string>, current: seq<string>)
    requires forall i :: 0 <= i < |words| ==> !IsOr(words[i])
    ensures Read(words, current) == [current + words] && !Dangles(words, current)
    decreases |words|
  {
    if words == [] {
      assert current + words == current;
    } else {
      OneBranch(words[1..], current + [words[0]]);
      assert current + [words[0]] + words[1..] == current + words;
    }
  }

  lemma ReadHead(word: string, more: seq<string>, current: seq<string>)
    ensures Read([word] + more, current) ==
            if IsOr(word) && current != [] && more != [] then [current] + Read(more, [])
            else Read(more, current + [word])
  {
    assert ([word] + more)[1..] == more;
  }

  /** After words that do not end in a dangling or, an OR and more words are read as branches of their own. */
  lemma {:induction false} ReadAroundOr(words: seq<string>, current: seq<string>, rest: seq<string>)
    requires !Dangles(words, current) && current + words != [] && rest != []
    ensures Read(words + ["OR"] + rest, current) == Read(words, current) + Read(rest, [])
    decreases |words|
  {
    if words == [] {
      assert words + ["OR"] + rest == ["OR"] + rest;
      ReadHead("OR", rest, current);
    } else {
      var word, tail := words[0], words[1..];
      assert words + ["OR"] + rest == [word] + (tail + ["OR"] + rest);
      assert words == [word] + tail;
      ReadHead(word, tail + ["OR"] + rest, current);
      ReadHead(word, tail, current);
      if IsOr(word) && current != [] {
        ReadAroundOr(tail, [], rest);
      } else {
        ReadAroundOr(tail, current + [word], rest);
      }
    }
  }

  /** Words that do end in one give it up: with more words behind, their last branch is another. */
  lemma {:induction false} ReadAfterDangling(words: seq<string>, current: seq<string>, more: seq<string>)
    requires Dangles(words, current) && more != []
    ensures var n := |Read(words, current)| - 1;
            0 <= n < |Read(words + more, current)| && Read(words + more, current)[n] != Read(words, current)[n]
    decreases |words|
  {
    var word, tail := words[0], words[1..];
    assert words + more == [word] + (tail + more) && words == [word] + tail;
    ReadHead(word, tail + more, current);
    ReadHead(word, tail, current);
    if IsOr(word) && current != [] {
      if tail == [] {
        assert Read(words, current) == [current + [word]];
      } else {
        ReadAfterDangling(tail, [], more);
      }
    } else {
      ReadAfterDangling(tail, current + [word], more);
    }
  }

  ghost predicate NoOr(branches: seq<seq<string>>) {
    forall i, j :: 0 <= i < |branches| && 0 <= j < |branches[i]| ==> !IsOr(branches[i][j])
  }

  ghost predicate NoneEmpty(branches: seq<seq<string>>) {
    forall i :: 0 <= i < |branches| ==> branches[i] != []
  }

  lemma OrWordsNotEmpty(branches: seq<seq<string>>)
    requires branches != [] && NoneEmpty(branches)
    ensures OrWords(branches) != []
  {
    assert branches[0] != [];
  }

  lemma {:induction false} BranchesOfOrWords(branches: seq<seq<string>>)
    requires branches != [] && NoOr(branches) && NoneEmpty(branches)
    ensures Branches(OrWords(branches)) == branches
  {
    OneBranch(branches[0], []);
    assert [] + branches[0] == branches[0];
    if |branches| > 1 {
      BranchesOfOrWords(branches[1..]);
      OrWordsNotEmpty(branches[1..]);
      ReadAroundOr(branches[0], [], OrWords(branches[1..]));
      assert branches == [branches[0]] + branches[1..];
    }
  }

  function Texts(branches: seq<seq<string>>): seq<string> {
    seq(|branches|, i requires 0 <= i < |branches| => Join(branches[i], " "))
  }

  lemma AroundOr(x: string, y: string)
    ensures x + " " + "OR" + " " + y == x + " OR " + y
  {
  }

  lemma {:induction false} JoinOfOrWords(branches: seq<seq<string>>)
    requires branches != [] && NoneEmpty(branches)
    ensures Join(OrWords(branches), " ") == Join(Texts(branches), " OR ")
  {
    if |branches| > 1 {
      var first, rest := branches[0], branches[1..];
      JoinOfOrWords(rest);
      OrWordsNotEmpty(rest);
      assert Texts(branches) == [Join(first, " ")] + Texts(rest);
      JoinOfTwo(first + ["OR"], OrWords(rest), " ");
      JoinOfTwo(first, ["OR"], " ");
      JoinOfTwo([Join(first, " ")], Texts(rest), " OR ");
      AroundOr(Join(first, " "), Join(OrWords(rest), " "));
    }
  }

  // ---- What an expanded query is ----

  /** A rule's expansion that is written with single spaces, and without an or of its own. */
  predicate IsClean(expansion: string) {
    var words := Fields(expansion);
    words != [] && (forall i :: 0 <= i < |words| ==> !IsOr(words[i])) && Join(words, " ") == expansion
  }

  predicate AreClean(rules: seq<Rule>) {
    forall i :: 0 <= i < |rules| ==> IsClean(rules[i].expansion)
  }

  /** Trimming first makes no difference to the fields. */
  lemma CanonicalFields(query: string)
    ensures Fields(Canonical(query)) == Fields(query)
    ensures Canonical(query) == Join(Fields(query), " ")
    ensures Canonical(Canonical(query)) == Canonical(query)
  {
    FieldsOfTrimLeft(query);
    FieldsOfTrimRight(TrimLeft(query));
    FieldsAreWords(Trim(query));
    FieldsOfJoin(Fields(Trim(query)));
    var c := Canonical(query);
    FieldsOfTrimLeft(c);
    FieldsOfTrimRight(TrimLeft(c));
  }

  lemma ExpansionsAreClean(u: Unicode, rules: seq<Rule>, query: string, i: nat)
    requires AreClean(rules) && i < |QueryExpansions(u, rules, query)|
    ensures IsClean(QueryExpansions(u, rules, query)[i])
  {
    ExpansionsAre(u, Tokens(u, Canonical(query)), rules, QueryExpansions(u, rules, query)[i]);
  }

  /** The fields of each expansion. */
  function Expanding(u: Unicode, rules: seq<Rule>, query: string): seq<seq<string>> {
    var es := QueryExpansions(u, rules, query);
    seq(|es|, i requires 0 <= i < |es| => Fields(es[i]))
  }

  lemma ExpandingIsSound(u: Unicode, rules: seq<Rule>, query: string)
    requires AreClean(rules)
    ensures NoneEmpty(Expanding(u, rules, query)) && NoOr(Expanding(u, rules, query))
    ensures Texts(Expanding(u, rules, query)) == QueryExpansions(u, rules, query)
  {
    var es, bs := QueryExpansions(u, rules, query), Expanding(u, rules, query);
    forall i | 0 <= i < |es|
      ensures IsClean(es[i]) && bs[i] == Fields(es[i])
    {
      ExpansionsAreClean(u, rules, query, i);
    }
  }

  /** A query that expands has words of its own. */
  lemma ExpandingQuery(u: Unicode, rules: seq<Rule>, query: string)
    requires u.fold("") == "" && QueryExpansions(u, rules, query) != []
    ensures Fields(query) != []
  {
    CanonicalFields(query);
    if Fields(query) == [] {
      NothingMatchesNoTokens(u, rules);
    }
  }

  /** The fields of the expanded query. */
  function ExpandedWords(u: Unicode, rules: seq<Rule>, query: string): seq<string> {
    Fields(query) + ["OR"] + OrWords(Expanding(u, rules, query))
  }

  lemma ExpandedIsJoin(u: Unicode, rules: seq<Rule>, query: string)
    requires AreClean(rules) && u.fold("") == "" && QueryExpansions(u, rules, query) != []
    ensures Expanded(u, rules, query) == Join(ExpandedWords(u, rules, query), " ")
  {
    var words, bs := Fields(query), Expanding(u, rules, query);
    ExpandingQuery(u, rules, query);
    CanonicalFields(query);
    ExpandingIsSound(u, rules, query);
    OrWordsNotEmpty(bs);
    JoinOfOrWords(bs);
    JoinOfTwo(words + ["OR"], OrWords(bs), " ");
    JoinOfTwo(words, ["OR"], " ");
    AroundOr(Join(words, " "), Join(OrWords(bs), " "));
  }

  lemma {:induction false} OrWordsAreWords(branches: seq<seq<string>>)
    requires forall i :: 0 <= i < |branches| ==> AreWords(branches[i])
    ensures AreWords(OrWords(branches))
  {
    if |branches| > 1 {
      OrWordsAreWords(branches[1..]);
      assert IsWord("OR");
    }
  }

  lemma FieldsOfExpanded(u: Unicode, rules: seq<Rule>, query: string)
    requires AreClean(rules) && u.fold("") == "" && QueryExpansions(u, rules, query) != []
    ensures Fields(Expanded(u, rules, query)) == ExpandedWords(u, rules, query)
  {
    var bs := Expanding(u, rules, query);
    ExpandedIsJoin(u, rules, query);
    forall i | 0 <= i < |bs|
      ensures AreWords(bs[i])
    {
      FieldsAreWords(QueryExpansions(u, rules, query)[i]);
    }
    OrWordsAreWords(bs);
    FieldsAreWords(query);
    assert IsWord("OR");
    FieldsOfJoin(ExpandedWords(u, rules, query));
  }

  /**
    * The branches of the query stay, and every expansion is one more branch, so no word of an expansion
    * becomes mandatory for the query: exactly when nothing is appended, or the query does not end in an or
    * of its own, which the appended OR would turn into an operator.
    */
  lemma ExpandedReadsAsBranches(u: Unicode, rules: seq<Rule>, query: string)
    requires AreClean(rules) && u.fold("") == ""
    ensures Branches(Fields(Expanded(u, rules, query))) == Branches(Fields(query)) + Expanding(u, rules, query)
       <==> QueryExpansions(u, rules, query) == [] || !Dangles(Fields(query), [])
  {
    if QueryExpansions(u, rules, query) == [] {
      CanonicalFields(query);
    } else {
      BranchesOfExpanded(u, rules, query);
    }
  }

  lemma BranchesOfExpanded(u: Unicode, rules: seq<Rule>, query: string)
    requires AreClean(rules) && u.fold("") == "" && QueryExpansions(u, rules, query) != []
    ensures Branches(Fields(Expanded(u, rules, query))) == Branches(Fields(query)) + Expanding(u, rules, query)
       <==> !Dangles(Fields(query), [])
  {
    var words, bs := Fields(query), Expanding(u, rules, query);
    FieldsOfExpanded(u, rules, query);
    ExpandingQuery(u, rules, query);
    ExpandingIsSound(u, rules, query);
    OrWordsNotEmpty(bs);
    BranchesOfOrWords(bs);
    assert [] + words == words;
    if Dangles(words, []) {
      assert ExpandedWords(u, rules, query) == words + (["OR"] + OrWords(bs));
      ReadAfterDangling(words, [], ["OR"] + OrWords(bs));
    } else {
      ReadAroundOr(words, [], OrWords(bs));
    }
  }

  /** "rg or" ends so, "or rg" and "rg or cpf" do not. */
  lemma WhatDangles()
    ensures Dangles(["rg", "or"], []) && !Dangles(["or", "rg"], []) && !Dangles(["rg", "or", "cpf"], [])
  {
    assert ["rg", "or"][1..] == ["or"] && ["or", "rg"][1..] == ["rg"] && ["rg", "or", "cpf"][1..] == ["or", "cpf"];
    assert ["or", "cpf"][1..] == ["cpf"] && !Dangles(["cpf"], []);
    assert Dangles(["rg", "or", "cpf"], []) == Dangles(["or", "cpf"], ["rg"]);
  }

  /** Expanding twice is expanding once, for every string. */
  lemma ExpandIsIdempotent(u: Unicode, rules: seq<Rule>, query: string)
    requires AreClean(rules) && u.fold("") == ""
    ensures Expanded(u, rules, Expanded(u, rules, query)) == Expanded(u, rules, query)
  {
    CanonicalFields(query);
    if QueryExpansions(u, rules, query) != [] {
      var e := Expanded(u, rules, query);
      FieldsOfExpanded(u, rules, query);
      ExpandedIsJoin(u, rules, query);
      CanonicalFields(e);
      assert Fields(e)[|Fields(query)|] == "OR" && IsOperator(Fields(e)[|Fields(query)|]);
    }
  }

  /** A query with syntax of its own is left alone, up to its spaces; otherwise it is the start of the result. */
  lemma ExpandedStartsWithQuery(u: Unicode, rules: seq<Rule>, query: string)
    ensures Canonical(query) <= Expanded(u, rules, query)
    ensures IsExplicit(Canonical(query)) ==> Expanded(u, rules, query) == Canonical(query)
    ensures IsExplicit(Canonical(query)) <==> IsExplicit(query)
  {
    CanonicalFields(query);
    QuoteIsKept(query);
  }

  /** A quote is no white space, so making the query canonical keeps it. */
  lemma QuoteIsKept(query: string)
    ensures '"' in query <==> '"' in Canonical(query)
  {
    CanonicalFields(query);
    QuoteInJoin(Fields(query));
    QuoteInFields(query, "");
  }

  ghost predicate SomeHasQuote(words: seq<string>) {
    exists i :: 0 <= i < |words| && '"' in words[i]
  }

  lemma {:induction false} QuoteInJoin(words: seq<string>)
    ensures '"' in Join(words, " ") <==> SomeHasQuote(words)
  {
    if |words| > 1 {
      var last := |words| - 1;
      QuoteInJoin(words[..last]);
      assert words == words[..last] + [words[last]];
      assert SomeHasQuote(words) <==> SomeHasQuote(words[..last]) || '"' in words[last];
    }
  }

  lemma {:induction false} QuoteInFields(s: string, current: string)
    ensures '"' in s || '"' in current
       <==> SomeHasQuote(Split(s, current, (c: char) => !IsSpace(c), (c: char) => false))
    decreases |s|
  {
    if s == "" {
      assert current != "" ==> Ended(current)[0] == current;
    } else {
      assert s == [s[0]] + s[1..];
      var rest := Split(s[1..], "", (c: char) => !IsSpace(c), (c: char) => false);
      if IsSpace(s[0]) {
        QuoteInFields(s[1..], "");
        assert SomeHasQuote(Ended(current) + rest) <==> '"' in current || SomeHasQuote(rest) by {
          if SomeHasQuote(rest) {
            var i :| 0 <= i < |rest| && '"' in rest[i];
            assert (Ended(current) + rest)[|Ended(current)| + i] == rest[i];
          }
          if '"' in current {
            assert (Ended(current) + rest)[0] == current;
          }
        }
      } else {
        QuoteInFields(s[1..], current + [s[0]]);
      }
    }
  }
}
