/** src/chips/compiler/constraints.py: the identity under which constraints are deduplicated. */
module Constraints {
  import opened Signals
  import opened Text

  // ---- normalize_text ----

  /** Each run of white space becomes one space. */
  function Collapse(s: string): string
    decreases |s|
  {
    if s == [] then []
    else if IsSpace(s[0]) then " " + Collapse(StripLeft(s[1..]))
    else [s[0]] + Collapse(s[1..])
  }

  function FoldAll(fold: char -> string, s: string): string {
    if s == [] then [] else fold(s[0]) + FoldAll(fold, s[1..])
  }

  predicate SpaceFree(s: string) {
    forall i :: 0 <= i < |s| ==> !IsSpace(s[i])
  }

  /** What str.casefold guarantees of single characters. */
  ghost predicate CaseFold(fold: char -> string) {
    forall c ::
      if IsSpace(c) then fold(c) == [c]
      else fold(c) != [] && SpaceFree(fold(c)) && FoldAll(fold, fold(c)) == fold(c)
  }

  function NormalizeText(fold: char -> string, s: string): string {
    FoldAll(fold, Strip(Collapse(s)))
  }

  /** ASCII case folding is one such folding. */
  function AsciiFold(c: char): string {
    if 'A' <= c <= 'Z' then [c + 32 as char] else [c]
  }

  lemma AsciiFoldIsCaseFold()
    ensures CaseFold(AsciiFold)
  {
    forall c: char | !IsSpace(c) ensures FoldAll(AsciiFold, AsciiFold(c)) == AsciiFold(c) {
      assert AsciiFold(c)[1..] == [];
    }
  }

  /** Two characters fold alike exactly when they are the same or the two cases of one letter of the alphabet. */
  lemma AsciiCases(c: char, d: char)
    ensures AsciiFold(c) == AsciiFold(d) <==>
      || c == d
      || ('A' <= c <= 'Z' && d as int == c as int + 32)
      || ('A' <= d <= 'Z' && c as int == d as int + 32)
  {
    assert AsciiFold(c) == AsciiFold(d) <==> AsciiFold(c)[0] == AsciiFold(d)[0];
  }

  // ---- What normalisation means: the list of folded words ----

  /** The longest prefix without white space. */
  function Word(s: string): (w: string)
    ensures |w| <= |s| && s == w + s[|w|..] && SpaceFree(w)
    ensures |w| < |s| ==> IsSpace(s[|w|])
    ensures s != [] && !IsSpace(s[0]) ==> w != []
  {
    if s == [] || IsSpace(s[0]) then [] else [s[0]] + Word(s[1..])
  }

  /** str.split(): the words of a text. */
  function Words(s: string): seq<string>
    decreases |s|
  {
    var t := StripLeft(s);
    if t == [] then [] else [Word(t)] + Words(t[|Word(t)|..])
  }

  function Joined(words: seq<string>): string {
    if words == [] then []
    else if |words| == 1 then words[0]
    else words[0] + (" " + Joined(words[1..]))
  }

  function FoldWords(fold: char -> string, words: seq<string>): seq<string> {
    if words == [] then [] else [FoldAll(fold, words[0])] + FoldWords(fold, words[1..])
  }

  ghost predicate AreWords(words: seq<string>) {
    forall i :: 0 <= i < |words| ==> words[i] != [] && SpaceFree(words[i])
  }

  lemma {:induction false} WordsAreWords(s: string)
    ensures AreWords(Words(s))
    decreases |s|
  {
    var t := StripLeft(s);
    if t != [] {
      WordsAreWords(t[|Word(t)|..]);
    }
  }

  lemma {:induction false} JoinedTrimmed(words: seq<string>)
    requires AreWords(words)
    ensures Trimmed(Joined(words)) && (Joined(words) == [] <==> words == [])
  {
    if |words| > 1 {
      JoinedTrimmed(words[1..]);
    }
  }

  lemma {:induction false} CollapseWord(w: string, rest: string)
    requires SpaceFree(w)
    ensures Collapse(w + rest) == w + Collapse(rest)
  {
    if w == [] {
      assert w + rest == rest;
    } else {
      assert (w + rest)[1..] == w[1..] + rest;
      CollapseWord(w[1..], rest);
      assert [w[0]] + (w[1..] + Collapse(rest)) == w + Collapse(rest);
    }
  }

  lemma WordsFrom(t: string)
    requires t != [] && !IsSpace(t[0])
    ensures Words(t) == [Word(t)] + Words(t[|Word(t)|..])
  {
  }

  lemma WordsSkip(s: string)
    ensures Words(StripLeft(s)) == Words(s)
  {
  }

  /** Collapsing a text that starts with a word joins its words, and keeps at most one space at the end. */
  lemma {:induction false} CollapseIsJoined(t: string)
    requires t != [] ==> !IsSpace(t[0])
    ensures Collapse(t) == Joined(Words(t)) || Collapse(t) == Joined(Words(t)) + " "
    decreases |t|
  {
    if t != [] {
      var w := Word(t);
      var r := t[|w|..];
      CollapseWord(w, r);
      WordsFrom(t);
      WordsSkip(r);
      assert [w] + [] == [w];
      if r == [] {
        assert w + [] == w;
      } else {
        var u := StripLeft(r);
        assert StripLeft(r[1..]) == u;
        CollapseIsJoined(u);
        JoinTail(w, Words(u), Collapse(u));
      }
    }
  }

  lemma JoinTail(w: string, words: seq<string>, tail: string)
    requires tail == Joined(words) || tail == Joined(words) + " "
    requires words == [] ==> tail == []
    ensures w + (" " + tail) == Joined([w] + words) || w + (" " + tail) == Joined([w] + words) + " "
  {
  }

  lemma LeadingSpace(s: string)
    ensures Collapse(s) == (if s != [] && IsSpace(s[0]) then " " else "") + Collapse(StripLeft(s))
  {
  }

  /** A collapsed text: its words joined, with at most one space on each side. */
  lemma Framed(s: string) returns (before: string, after: string)
    ensures Collapse(s) == before + Joined(Words(s)) + after
    ensures before in {"", " "} && after in {"", " "}
    ensures Words(s) == [] ==> after == ""
  {
    hide Collapse, Joined, StripLeft, Words;
    var t := StripLeft(s);
    LeadingSpace(s);
    CollapseIsJoined(t);
    WordsSkip(s);
    before := if s != [] && IsSpace(s[0]) then " " else "";
    after := "";
    if Collapse(t) == Joined(Words(s)) {
      assert before + Collapse(t) + "" == before + Collapse(t);
    } else {
      after := " ";
      assert before + (Joined(Words(s)) + " ") == before + Joined(Words(s)) + " ";
    }
    NoWords(s);
  }

  lemma NoWords(s: string)
    ensures Words(s) == [] <==> StripLeft(s) == []
    ensures StripLeft(s) == [] ==> Collapse(StripLeft(s)) == Joined(Words(s))
  {
  }

  lemma StripCollapse(s: string)
    ensures Strip(Collapse(s)) == Joined(Words(s))
  {
    hide Collapse, Joined, StripLeft, StripRight, Words;
    WordsAreWords(s);
    JoinedTrimmed(Words(s));
    var before, after := Framed(s);
    if Joined(Words(s)) == [] {
      assert before + [] + "" == before;
      StripSmall();
    } else {
      StripAround(before, Joined(Words(s)), after);
    }
  }

  lemma StripSmall()
    ensures Strip("") == "" && Strip(" ") == "" && Collapse("") == ""
  {
  }

  lemma {:induction false} FoldConcat(fold: char -> string, a: string, b: string)
    ensures FoldAll(fold, a + b) == FoldAll(fold, a) + FoldAll(fold, b)
  {
    if a == [] {
      assert a + b == b;
    } else {
      assert (a + b)[1..] == a[1..] + b;
      FoldConcat(fold, a[1..], b);
    }
  }

  lemma {:induction false} FoldJoined(fold: char -> string, words: seq<string>)
    requires CaseFold(fold)
    ensures FoldAll(fold, Joined(words)) == Joined(FoldWords(fold, words))
  {
    if |words| > 1 {
      FoldConcat(fold, words[0], " " + Joined(words[1..]));
      FoldConcat(fold, " ", Joined(words[1..]));
      FoldJoined(fold, words[1..]);
    }
  }

  lemma {:induction false} FoldWord(fold: char -> string, w: string)
    requires CaseFold(fold) && SpaceFree(w)
    ensures SpaceFree(FoldAll(fold, w)) && (w != [] ==> FoldAll(fold, w) != [])
    ensures FoldAll(fold, FoldAll(fold, w)) == FoldAll(fold, w)
  {
    if w != [] {
      assert !IsSpace(w[0]);
      FoldWord(fold, w[1..]);
      FoldConcat(fold, fold(w[0]), FoldAll(fold, w[1..]));
    }
  }

  lemma {:induction false} FoldedWords(fold: char -> string, words: seq<string>)
    requires CaseFold(fold) && AreWords(words)
    ensures AreWords(FoldWords(fold, words))
    ensures FoldWords(fold, FoldWords(fold, words)) == FoldWords(fold, words)
  {
    if words != [] {
      FoldWord(fold, words[0]);
      FoldedWords(fold, words[1..]);
    }
  }

  lemma {:induction false} WordOf(w: string, rest: string)
    requires SpaceFree(w) && (rest == [] || IsSpace(rest[0]))
    ensures Word(w + rest) == w
  {
    if w == [] {
      assert w + rest == rest;
    } else {
      assert (w + rest)[1..] == w[1..] + rest;
      WordOf(w[1..], rest);
    }
  }

  /** Words are what joining keeps. */
  lemma {:induction false} WordsOfJoined(words: seq<string>)
    requires AreWords(words)
    ensures Words(Joined(words)) == words
  {
    hide Words;
    if words == [] {
      NoWordsIn();
    } else if |words| == 1 {
      NoWordsIn();
      NextWord(words[0], "", "");
      assert words[0] + "" == words[0];
      assert words == [words[0]] + [];
    } else {
      WordsOfJoined(words[1..]);
      JoinedTrimmed(words[1..]);
      NextWord(words[0], " " + Joined(words[1..]), Joined(words[1..]));
      assert words == [words[0]] + words[1..];
    }
  }

  lemma NoWordsIn()
    ensures Words("") == []
  {
  }

  lemma NextWord(w: string, rest: string, next: string)
    requires w != [] && SpaceFree(w)
    requires rest == [] == next || (rest == " " + next && Trimmed(next))
    ensures Words(w + rest) == [w] + Words(next)
  {
    hide Words;
    WordOf(w, rest);
    assert (w + rest)[|w|..] == rest;
    WordsFrom(w + rest);
    if rest != [] {
      assert rest[1..] == next;
      assert StripLeft(rest) == StripLeft(next);
      WordsSkip(rest);
      WordsSkip(next);
    }
  }

  lemma NormalizeIsWords(fold: char -> string, s: string)
    requires CaseFold(fold)
    ensures NormalizeText(fold, s) == Joined(FoldWords(fold, Words(s)))
    ensures Words(NormalizeText(fold, s)) == FoldWords(fold, Words(s))
  {
    StripCollapse(s);
    FoldJoined(fold, Words(s));
    WordsAreWords(s);
    FoldedWords(fold, Words(s));
    WordsOfJoined(FoldWords(fold, Words(s)));
  }

  /** Two texts are normalised alike exactly when they have the same words up to case. */
  lemma SameTextIff(fold: char -> string, s: string, t: string)
    requires CaseFold(fold)
    ensures NormalizeText(fold, s) == NormalizeText(fold, t) <==> FoldWords(fold, Words(s)) == FoldWords(fold, Words(t))
  {
    NormalizeIsWords(fold, s);
    NormalizeIsWords(fold, t);
  }

  lemma NormalizeTwice(fold: char -> string, s: string)
    requires CaseFold(fold)
    ensures NormalizeText(fold, NormalizeText(fold, s)) == NormalizeText(fold, s)
  {
    NormalizeIsWords(fold, s);
    NormalizeIsWords(fold, NormalizeText(fold, s));
    WordsAreWords(s);
    FoldedWords(fold, Words(s));
  }

  // ---- dedup_hash ----

  datatype Kind = Forbidden | Invariant | KnownIssue

  /** A JSON value; a number is known by its text. Objects are equal whatever the order of their keys. */
  datatype Json = Null | Bool(b: bool) | Number(text: string) | Str(s: string) | Array(items: seq<Json>)
    | Object(fields: map<string, Json>)

  /** What add is asked to store. */
  datatype Draft = Draft(tenant: Option<string>, scope: string, kind: Kind, text: string,
                         target: Option<map<string, Json>>)

  /** The list that is hashed; its JSON text, keys sorted, and the hash are taken to be injective. */
  datatype Identity = Identity(tenant: string, scope: string, kind: Kind, text: string, target: map<string, Json>)

  function OrElse<T>(o: Option<T>, default: T): T {
    match o case None => default case Some(v) => v
  }

  function DedupKey(fold: char -> string, d: Draft): Identity {
    Identity(OrElse(d.tenant, ""), d.scope, d.kind, NormalizeText(fold, d.text), OrElse(d.target, map[]))
  }

  /** Two drafts are the same constraint: everything equal, the text word for word up to case. */
  ghost predicate SameConstraint(fold: char -> string, a: Draft, b: Draft) {
    && (a.tenant == b.tenant || {a.tenant, b.tenant} <= {None, Some("")})
    && a.scope == b.scope && a.kind == b.kind
    && FoldWords(fold, Words(a.text)) == FoldWords(fold, Words(b.text))
    && (a.target == b.target || {a.target, b.target} <= {None, Some(map[])})
  }

  lemma DedupKeyIff(fold: char -> string, a: Draft, b: Draft)
    requires CaseFold(fold)
    ensures DedupKey(fold, a) == DedupKey(fold, b) <==> SameConstraint(fold, a, b)
  {
    SameTextIff(fold, a.text, b.text);
  }
}
