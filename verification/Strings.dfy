/** The Go string helpers the models need: `strings.TrimSpace`, `strings.Fields` and `strings.Join`. */
module Strings {

  /** `unicode.IsSpace`: the characters with the White_Space property. */
  predicate IsSpace(c: char) {
    || '\U{9}' <= c <= '\U{D}'
    || c in {'\U{20}', '\U{85}', '\U{A0}', '\U{1680}', '\U{2028}', '\U{2029}', '\U{202F}', '\U{205F}', '\U{3000}'}
    || '\U{2000}' <= c <= '\U{200A}'
  }

  function TrimLeft(s: string): string {
    if s != "" && IsSpace(s[0]) then TrimLeft(s[1..]) else s
  }

  function TrimRight(s: string): string {
    if s != "" && IsSpace(s[|s| - 1]) then TrimRight(s[..|s| - 1]) else s
  }

  function Trim(s: string): string {
    TrimRight(TrimLeft(s))
  }

  predicate IsTrimmed(s: string) {
    s == "" || (!IsSpace(s[0]) && !IsSpace(s[|s| - 1]))
  }

  lemma {:induction false} TrimLeftStart(s: string)
    ensures TrimLeft(s) == "" || !IsSpace(TrimLeft(s)[0])
  {
    if s != "" && IsSpace(s[0]) {
      TrimLeftStart(s[1..]);
    }
  }

  lemma {:induction false} TrimRightEnds(s: string)
    ensures TrimRight(s) == "" || !IsSpace(TrimRight(s)[|TrimRight(s)| - 1])
    ensures TrimRight(s) != "" ==> s != "" && TrimRight(s)[0] == s[0]
  {
    if s != "" && IsSpace(s[|s| - 1]) {
      TrimRightEnds(s[..|s| - 1]);
    }
  }

  /** Trimming gives a trimmed string, and leaves exactly the trimmed ones alone. */
  lemma TrimIsTrimmed(s: string)
    ensures IsTrimmed(Trim(s))
    ensures IsTrimmed(s) <==> Trim(s) == s
  {
    TrimLeftStart(s);
    TrimRightEnds(TrimLeft(s));
  }

  // ---- Splitting ----

  /** One field of what is kept, read so far: `current`. A skipped character neither joins a field nor ends it. */
  function Split(s: string, current: string, keep: char -> bool, skip: char -> bool): seq<string> {
    if s == "" then Ended(current)
    else if skip(s[0]) then Split(s[1..], current, keep, skip)
    else if keep(s[0]) then Split(s[1..], current + [s[0]], keep, skip)
    else Ended(current) + Split(s[1..], "", keep, skip)
  }

  function Ended(current: string): seq<string> {
    if current == "" then [] else [current]
  }

  function Kept(s: string, skip: char -> bool): string {
    if s == "" then "" else (if skip(s[0]) then "" else [s[0]]) + Kept(s[1..], skip)
  }

  /** A character that is neither kept nor skipped ends a field. */
  lemma {:induction false} SplitAtSeparator(
    a: string, c: char, b: string, current: string, keep: char -> bool, skip: char -> bool)
    requires !keep(c) && !skip(c)
    ensures Split(a + [c] + b, current, keep, skip) == Split(a, current, keep, skip) + Split(b, "", keep, skip)
    decreases |a|
  {
    var s := a + [c] + b;
    if a == "" {
      assert s[1..] == b;
    } else {
      assert s[1..] == a[1..] + [c] + b;
      var next := if skip(a[0]) then current else if keep(a[0]) then current + [a[0]] else "";
      SplitAtSeparator(a[1..], c, b, next, keep, skip);
    }
  }

  /** A run of kept and skipped characters is one field: what is kept of it. */
  lemma {:induction false} SplitOfRun(s: string, current: string, keep: char -> bool, skip: char -> bool)
    requires forall i :: 0 <= i < |s| ==> keep(s[i]) || skip(s[i])
    ensures Split(s, current, keep, skip) == Ended(current + Kept(s, skip))
    decreases |s|
  {
    if s == "" {
      assert current + "" == current;
    } else {
      SplitOfRun(s[1..], if skip(s[0]) then current else current + [s[0]], keep, skip);
      if skip(s[0]) {
        assert "" + Kept(s[1..], skip) == Kept(s[1..], skip);
      } else {
        assert current + [s[0]] + Kept(s[1..], skip) == current + ([s[0]] + Kept(s[1..], skip));
      }
    }
  }

  /** `strings.Fields`: the maximal runs of characters that are not white space. */
  function Fields(s: string): seq<string> {
    Split(s, "", (c: char) => !IsSpace(c), (c: char) => false)
  }

  function Join(words: seq<string>, separator: string): string {
    if words == [] then ""
    else if |words| == 1 then words[0]
    else Join(words[..|words| - 1], separator) + separator + words[|words| - 1]
  }

  predicate IsWord(w: string) {
    w != "" && forall i :: 0 <= i < |w| ==> !IsSpace(w[i])
  }

  predicate AreWords(words: seq<string>) {
    forall i :: 0 <= i < |words| ==> IsWord(words[i])
  }

  lemma {:induction false} SplitMakesWords(s: string, current: string)
    requires forall i :: 0 <= i < |current| ==> !IsSpace(current[i])
    ensures AreWords(Split(s, current, (c: char) => !IsSpace(c), (c: char) => false))
    decreases |s|
  {
    if s != "" {
      SplitMakesWords(s[1..], if IsSpace(s[0]) then "" else current + [s[0]]);
    }
  }

  lemma FieldsAreWords(s: string)
    ensures AreWords(Fields(s))
  {
    SplitMakesWords(s, "");
  }

  lemma {:induction false} KeptIsAll(s: string)
    ensures Kept(s, (c: char) => false) == s
  {
    if s != "" {
      KeptIsAll(s[1..]);
    }
  }

  lemma FieldsOfWord(w: string)
    requires IsWord(w)
    ensures Fields(w) == [w]
  {
    SplitOfRun(w, "", (c: char) => !IsSpace(c), (c: char) => false);
    KeptIsAll(w);
    assert "" + w == w;
  }

  lemma FieldsAtSpace(a: string, c: char, b: string)
    requires IsSpace(c)
    ensures Fields(a + [c] + b) == Fields(a) + Fields(b)
  {
    SplitAtSeparator(a, c, b, "", (c: char) => !IsSpace(c), (c: char) => false);
  }

  /** Words joined by single spaces are found again. */
  lemma {:induction false} FieldsOfJoin(words: seq<string>)
    requires AreWords(words)
    ensures Fields(Join(words, " ")) == words
  {
    if |words| == 1 {
      FieldsOfWord(words[0]);
    } else if |words| > 1 {
      var last := |words| - 1;
      FieldsOfJoin(words[..last]);
      FieldsAtSpace(Join(words[..last], " "), ' ', words[last]);
      FieldsOfWord(words[last]);
      assert words == words[..last] + [words[last]];
    }
  }

  lemma {:induction false} FieldsOfTrimLeft(s: string)
    ensures Fields(TrimLeft(s)) == Fields(s)
  {
    if s != "" && IsSpace(s[0]) {
      FieldsOfTrimLeft(s[1..]);
      FieldsAtSpace("", s[0], s[1..]);
      assert "" + [s[0]] + s[1..] == s;
    }
  }

  lemma {:induction false} FieldsOfTrimRight(s: string)
    ensures Fields(TrimRight(s)) == Fields(s)
  {
    if s != "" && IsSpace(s[|s| - 1]) {
      var last := |s| - 1;
      FieldsOfTrimRight(s[..last]);
      FieldsAtSpace(s[..last], s[last], "");
      assert s[..last] + [s[last]] + "" == s;
    }
  }

  lemma {:induction false} JoinOfTwo(a: seq<string>, b: seq<string>, separator: string)
    requires a != [] && b != []
    ensures Join(a + b, separator) == Join(a, separator) + separator + Join(b, separator)
    decreases |b|
  {
    var last := |b| - 1;
    assert (a + b)[..|a + b| - 1] == a + b[..last];
    if last > 0 {
      JoinOfTwo(a, b[..last], separator);
      var x, y, z := Join(a, separator), Join(b[..last], separator), b[last];
      assert (x + separator + y) + separator + z == x + separator + (y + separator + z);
    } else {
      assert a + b[..last] == a;
    }
  }
}
