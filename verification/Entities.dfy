/**
 * The vocabulary of entities (src/pipeline/vocabulary.py): normalising a mention twice is
 * normalising it once, and a mention once resolved always resolves to the same key.
 */
module Entities {
  import opened Wrappers
  import opened DocGraphs

  // --- normalize ---------------------------------------------------------------------------

  /** Lower case for the Latin and Russian alphabets, and ё as е. */
  function Fold(c: char): char {
    if 'A' <= c <= 'Z' then 'a' + (c - 'A')
    else if '\U{410}' <= c <= '\U{42f}' then '\U{430}' + (c - '\U{410}')
    else if c == '\U{401}' || c == '\U{451}' then '\U{435}'
    else c
  }

  function FoldAll(s: string): (r: string)
    ensures |r| == |s| && forall i :: 0 <= i < |s| ==> r[i] == Fold(s[i])
  {
    seq(|s|, i requires 0 <= i < |s| => Fold(s[i]))
  }

  function SkipSpaces(s: string): (r: string)
    ensures |r| <= |s| && (r != "" ==> !IsSpace(r[0]))
    ensures forall c :: c in r ==> c in s
  {
    if s != "" && IsSpace(s[0]) then SkipSpaces(s[1..]) else s
  }

  /** Every run of whitespace becomes one space. */
  function Collapse(s: string): (r: string)
    ensures forall c :: c in r ==> c == ' ' || c in s
    decreases |s|
  {
    if s == "" then ""
    else if IsSpace(s[0]) then [' '] + Collapse(SkipSpaces(s[1..]))
    else [s[0]] + Collapse(s[1..])
  }

  /** Whitespace and the punctuation trimmed from the edges. */
  predicate IsEdge(c: char) {
    IsSpace(c) || c in ".,;:-()[]\"'" || c in "\U{2014}\U{2013}\U{ab}\U{bb}"
  }

  function TrimLeft(s: string, drop: char -> bool): (r: string)
    ensures |r| <= |s| && s[|s| - |r|..] == r && (r != "" ==> !drop(r[0]))
  {
    if s != "" && drop(s[0]) then TrimLeft(s[1..], drop) else s
  }

  function TrimRight(s: string, drop: char -> bool): (r: string)
    ensures r <= s && (r != "" ==> !drop(r[|r| - 1]))
  {
    if s != "" && drop(s[|s| - 1]) then TrimRight(s[..|s| - 1], drop) else s
  }

  function Trim(s: string, drop: char -> bool): string {
    TrimRight(TrimLeft(s, drop), drop)
  }

  /** `normalize`. */
  function Normalize(s: string): string {
    Trim(Trim(Collapse(FoldAll(s)), IsSpace), IsEdge)
  }

  /** Folded, single spaces only. */
  ghost predicate Tidy(s: string) {
    && (forall i :: 0 <= i < |s| ==> Fold(s[i]) == s[i] && (IsSpace(s[i]) ==> s[i] == ' '))
    && (forall i :: 0 < i < |s| ==> !(IsSpace(s[i - 1]) && IsSpace(s[i])))
  }

  /** Capitals become the small letters at the same place of the alphabet, both kinds of ё become е, all else stays. */
  lemma FoldTable(c: char)
    ensures 'A' <= c <= 'Z' ==> 'a' <= Fold(c) <= 'z' && Fold(c) as int - 'a' as int == c as int - 'A' as int
    ensures 'А' <= c <= 'Я' ==> 'а' <= Fold(c) <= 'я' && Fold(c) as int - 'а' as int == c as int - 'А' as int
    ensures Fold('Ё') == 'е' && Fold('ё') == 'е'
    ensures !('A' <= c <= 'Z') && !('А' <= c <= 'Я') && c != 'Ё' && c != 'ё' ==> Fold(c) == c
  {
  }

  lemma FoldIdempotent(c: char)
    ensures Fold(Fold(c)) == Fold(c)
  {
  }

  ghost predicate Folded(s: string) {
    forall c :: c in s ==> Fold(c) == c
  }

  lemma PrependTidy(c: char, t: string)
    requires Tidy(t) && Fold(c) == c && (IsSpace(c) ==> c == ' ' && (t == "" || !IsSpace(t[0])))
    ensures Tidy([c] + t)
  {
    var s := [c] + t;
    assert forall i :: 0 < i < |s| ==> s[i] == t[i - 1];
  }

  lemma {:induction false} CollapseTidies(s: string)
    requires Folded(s)
    ensures Tidy(Collapse(s)) && (s != "" && !IsSpace(s[0]) ==> Collapse(s) != "" && Collapse(s)[0] == s[0])
    decreases |s|
  {
    if s != "" {
      assert s[0] in s;
      var rest := if IsSpace(s[0]) then SkipSpaces(s[1..]) else s[1..];
      assert forall c :: c in rest ==> c in s[1..];
      assert forall c :: c in s[1..] ==> c in s;
      CollapseTidies(rest);
      CollapseEmpty(rest);
      PrependTidy(if IsSpace(s[0]) then ' ' else s[0], Collapse(rest));
    }
  }

  lemma CollapseEmpty(s: string)
    ensures Collapse(s) == "" <==> s == ""
  {
  }

  lemma {:induction false} CollapseKeepsTidy(s: string)
    requires Tidy(s)
    ensures Collapse(s) == s
    decreases |s|
  {
    if s != "" {
      var rest := s[1..];
      assert forall i :: 0 <= i < |rest| ==> rest[i] == s[i + 1];
      CollapseKeepsTidy(rest);
      if IsSpace(s[0]) {
        assert rest != "" ==> !IsSpace(rest[0]);
        assert SkipSpaces(rest) == rest;
      }
      assert s == [s[0]] + rest;
    }
  }

  lemma PartTidy(s: string, i: nat, j: nat)
    requires Tidy(s) && i <= j <= |s|
    ensures Tidy(s[i..j])
  {
    var part := s[i..j];
    assert forall k :: 0 <= k < |part| ==> part[k] == s[i + k];
  }

  lemma {:induction false} TrimmedLeft(s: string, drop: char -> bool)
    ensures forall k :: 0 <= k < |s| - |TrimLeft(s, drop)| ==> drop(s[k])
  {
    if s != "" && drop(s[0]) {
      TrimmedLeft(s[1..], drop);
      assert forall k :: 0 < k < |s| ==> s[k] == s[1..][k - 1];
    }
  }

  lemma {:induction false} TrimmedRight(s: string, drop: char -> bool)
    ensures forall k :: |TrimRight(s, drop)| <= k < |s| ==> drop(s[k])
    decreases |s|
  {
    if s != "" && drop(s[|s| - 1]) {
      TrimmedRight(s[..|s| - 1], drop);
    }
  }

  /** Trimming drops only what is to be trimmed, and leaves a part that neither begins nor ends with it. */
  lemma TrimMeaning(s: string, drop: char -> bool)
    ensures exists i, j :: 0 <= i <= j <= |s| && Trim(s, drop) == s[i..j] && forall k :: 0 <= k < i || j <= k < |s| ==> drop(s[k])
    ensures Trim(s, drop) != "" ==> !drop(Trim(s, drop)[0]) && !drop(Trim(s, drop)[|Trim(s, drop)| - 1])
  {
    var left := TrimLeft(s, drop);
    var both := TrimRight(left, drop);
    var i := |s| - |left|;
    PrefixOfSuffix(s, i, left, both);
    TrimmedLeft(s, drop);
    TrimmedRight(left, drop);
    forall k | i + |both| <= k < |s|
      ensures drop(s[k])
    {
      assert s[k] == left[k - i];
    }
    assert Trim(s, drop) == s[i..i + |both|];
  }

  lemma PrefixOfSuffix(s: string, i: nat, left: string, both: string)
    requires i <= |s| && left == s[i..] && both <= left
    ensures both == s[i..i + |both|] && (both != "" ==> both[0] == left[0])
  {
  }

  lemma TrimKeeps(s: string, drop: char -> bool)
    requires s != "" ==> !drop(s[0]) && !drop(s[|s| - 1])
    ensures Trim(s, drop) == s
  {
  }

  lemma TrimTidy(s: string, drop: char -> bool)
    requires Tidy(s)
    ensures Tidy(Trim(s, drop))
  {
    TrimMeaning(s, drop);
    var i, j :| 0 <= i <= j <= |s| && Trim(s, drop) == s[i..j];
    PartTidy(s, i, j);
  }

  lemma FoldedTidy(s: string)
    ensures Tidy(Collapse(FoldAll(s)))
  {
    var folded := FoldAll(s);
    forall c | c in folded
      ensures Fold(c) == c
    {
      var i :| 0 <= i < |folded| && folded[i] == c;
      FoldIdempotent(s[i]);
    }
    CollapseTidies(folded);
  }

  lemma NormalTidy(s: string)
    ensures Tidy(Normalize(s))
    ensures Normalize(s) != "" ==> !IsEdge(Normalize(s)[0]) && !IsEdge(Normalize(s)[|Normalize(s)| - 1])
  {
    FoldedTidy(s);
    TrimTidy(Collapse(FoldAll(s)), IsSpace);
    var stripped := Trim(Collapse(FoldAll(s)), IsSpace);
    TrimTidy(stripped, IsEdge);
    TrimMeaning(stripped, IsEdge);
  }

  /** Normalising twice is normalising once. */
  lemma NormalizeIdempotent(s: string)
    ensures Normalize(Normalize(s)) == Normalize(s)
  {
    NormalTidy(s);
    TidyIsNormal(Normalize(s));
  }

  /** A tidy text that neither begins nor ends with what is trimmed is normalised already. */
  lemma TidyIsNormal(n: string)
    requires Tidy(n) && (n != "" ==> !IsEdge(n[0]) && !IsEdge(n[|n| - 1]))
    ensures Normalize(n) == n
  {
    FoldKeepsTidy(n);
    CollapseKeepsTidy(n);
    TrimKeeps(n, IsSpace);
    TrimKeeps(n, IsEdge);
  }

  lemma FoldKeepsTidy(n: string)
    requires Tidy(n)
    ensures FoldAll(n) == n
  {
  }

  lemma EmptyIsNormal()
    ensures Normalize("") == ""
  {
    assert FoldAll("") == "";
  }

  // --- what normalising forgets -------------------------------------------------------------------

  /** The words with one space between each two. */
  function Join(words: seq<string>): string {
    if words == [] then "" else if |words| == 1 then words[0] else words[0] + " " + Join(words[1..])
  }

  lemma {:induction false} SkipKeepsWords(s: string)
    ensures Words(SkipSpaces(s)) == Words(s)
    ensures s != "" ==> (SkipSpaces(s) == "" <==> forall k :: 0 <= k < |s| ==> IsSpace(s[k]))
    ensures SkipSpaces(s) != "" ==> SkipSpaces(s)[|SkipSpaces(s)| - 1] == s[|s| - 1]
  {
    if s != "" && IsSpace(s[0]) {
      SkipKeepsWords(s[1..]);
      assert forall k :: 0 < k < |s| ==> s[k] == s[1..][k - 1];
    }
  }

  /** One more character of a word, or a word of its own. */
  lemma WordsOfMore(c: char, t: string)
    requires !IsSpace(c)
    ensures Words([c] + t)
            == if t == "" || IsSpace(t[0]) then [[c]] + Words(t) else [[c] + Words(t)[0]] + Words(t)[1..]
    ensures t != "" && !IsSpace(t[0]) ==> Words(t) != []
  {
    var s := [c] + t;
    assert s[1..] == t && WordEnd(s) == 1 + WordEnd(t);
    assert s[..WordEnd(s)] == [c] + t[..WordEnd(t)] && s[WordEnd(s)..] == t[WordEnd(t)..];
    if t == "" || IsSpace(t[0]) {
      assert WordEnd(t) == 0 && t[..0] == "" && t[0..] == t;
    } else {
      assert Words(t) == [t[..WordEnd(t)]] + Words(t[WordEnd(t)..]);
    }
  }

  /** One space in front if there was any, one behind if there was any after a word. */
  function Spaced(s: string): string {
    (if s != "" && IsSpace(s[0]) then " " else "") + Join(Words(s))
    + (if Words(s) != [] && IsSpace(s[|s| - 1]) then " " else "")
  }

  lemma {:induction false} CollapseJoins(s: string)
    requires s != ""
    ensures Collapse(s) == Spaced(s)
    decreases |s|
  {
    if IsSpace(s[0]) {
      var rest := SkipSpaces(s[1..]);
      SkipKeepsWords(s[1..]);
      if rest != "" {
        CollapseJoins(rest);
      }
      SpaceInFront(s, rest);
    } else {
      var t := s[1..];
      assert s == [s[0]] + t;
      WordsOfMore(s[0], t);
      if t != "" {
        CollapseJoins(t);
        JoinOfMore(s[0], t);
        LetterInFront(s, s[0], t);
      } else {
        assert Collapse(s) == [s[0]] + Collapse(t) == [s[0]] && Words(t) == [] && Words(s) == [[s[0]]];
      }
    }
  }

  lemma SpaceInFront(s: string, rest: string)
    requires s != "" && IsSpace(s[0]) && rest == SkipSpaces(s[1..])
    requires rest != "" ==> Collapse(rest) == Spaced(rest) && rest[|rest| - 1] == s[|s| - 1]
    requires Words(rest) == Words(s[1..])
    ensures Collapse(s) == Spaced(s)
  {
    assert Words(s) == Words(rest) && Collapse(s) == " " + Collapse(rest);
    hide Words, Collapse, SkipSpaces, Join, IsSpace;
    if rest == "" {
      NoWords();
    } else {
      SpaceAhead(s, rest);
    }
  }

  lemma SpaceAhead(s: string, rest: string)
    requires s != "" && IsSpace(s[0]) && rest != "" && !IsSpace(rest[0]) && rest[|rest| - 1] == s[|s| - 1] && Words(s) == Words(rest)
    ensures " " + Spaced(rest) == Spaced(s)
  {
    hide Words, Join, IsSpace;
    var joined := Join(Words(rest));
    var behind := if Words(rest) != [] && IsSpace(rest[|rest| - 1]) then " " else "";
    assert Spaced(rest) == joined + behind && Spaced(s) == " " + joined + behind;
    assert " " + (joined + behind) == " " + joined + behind;
  }

  lemma NoWords()
    ensures Words("") == [] && Collapse("") == "" && Join([]) == ""
  {
  }

  lemma LetterInFront(s: string, c: char, t: string)
    requires s == [c] + t && t != "" && !IsSpace(c) && Collapse(t) == Spaced(t)
    requires Join(Words(s)) == [c] + (if IsSpace(t[0]) && Words(t) != [] then " " else "") + Join(Words(t)) && Words(s) != []
    ensures Collapse(s) == Spaced(s)
  {
    assert s[1..] == t && s[|s| - 1] == t[|t| - 1] && Collapse(s) == [c] + Spaced(t);
    if Words(t) == [] {
      AllSpaces(t);
      NoWords();
      hide Words, Join, IsSpace;
      assert Spaced(t) == " " && Join(Words(s)) == [c];
    } else {
      var front, behind := if IsSpace(t[0]) then " " else "", if IsSpace(t[|t| - 1]) then " " else "";
      assert Spaced(t) == front + Join(Words(t)) + behind && Spaced(s) == Join(Words(s)) + behind;
      LetterAhead(c, front, Join(Words(t)), behind);
    }
  }

  lemma LetterAhead(c: char, front: string, words: string, behind: string)
    ensures [c] + (front + words + behind) == ([c] + front + words) + behind
  {
  }

  lemma {:induction false} AllSpaces(t: string)
    requires Words(t) == []
    ensures forall k :: 0 <= k < |t| ==> IsSpace(t[k])
  {
    if t != "" {
      AllSpaces(t[1..]);
      assert forall k :: 0 < k < |t| ==> t[k] == t[1..][k - 1];
    }
  }

  lemma JoinOfMore(c: char, t: string)
    requires t != "" && !IsSpace(c)
    ensures Join(Words([c] + t)) == [c] + (if IsSpace(t[0]) && Words(t) != [] then " " else "") + Join(Words(t))
  {
    WordsOfMore(c, t);
    var w := Words(t);
    if IsSpace(t[0]) {
      assert ([[c]] + w)[1..] == w;
    } else {
      assert ([[c] + w[0]] + w[1..])[1..] == w[1..];
    }
  }

  /** No word is empty or has a space in it. */
  lemma {:induction false} WordsHaveNoSpace(s: string)
    ensures forall w :: w in Words(s) ==> w != "" && forall c :: c in w ==> !IsSpace(c)
    decreases |s|
  {
    if s != "" {
      if IsSpace(s[0]) {
        WordsHaveNoSpace(s[1..]);
      } else {
        WordsHaveNoSpace(s[WordEnd(s)..]);
        NoSpaceBefore(s);
      }
    }
  }

  lemma {:induction false} NoSpaceBefore(s: string)
    ensures forall c :: c in s[..WordEnd(s)] ==> !IsSpace(c)
  {
    if s != "" && !IsSpace(s[0]) {
      NoSpaceBefore(s[1..]);
      assert s[..WordEnd(s)] == [s[0]] + s[1..][..WordEnd(s[1..])];
    }
  }

  lemma {:induction false} JoinEnds(words: seq<string>)
    requires words != [] && forall w :: w in words ==> w != ""
    ensures words[0] in words && words[|words| - 1] in words
    ensures Join(words) != "" && Join(words)[0] == words[0][0]
    ensures Join(words)[|Join(words)| - 1] == words[|words| - 1][|words[|words| - 1]| - 1]
    decreases |words|
  {
    assert words[0] in words;
    if |words| > 1 {
      assert forall w :: w in words[1..] ==> w in words;
      JoinEnds(words[1..]);
    }
  }

  /** What is left between the edges of a text are its words with one space between. */
  lemma StrippedIsWords(s: string)
    ensures Trim(Collapse(s), IsSpace) == Join(Words(s))
  {
    if s != "" {
      CollapseJoins(s);
      WordsHaveNoSpace(s);
      if Words(s) == [] {
        AllSpaces(s);
        TrimSpaced(Join([]), s);
      } else {
        JoinEnds(Words(s));
        assert Words(s)[0] in Words(s) && Words(s)[|Words(s)| - 1] in Words(s);
        TrimSpaced(Join(Words(s)), s);
      }
    }
  }

  lemma TrimSpaced(inner: string, s: string)
    requires s != "" && inner == Join(Words(s))
    requires inner != "" ==> !IsSpace(inner[0]) && !IsSpace(inner[|inner| - 1])
    requires inner == "" ==> Words(s) == []
    ensures Trim(Spaced(s), IsSpace) == inner
  {
    hide Words, Join, TrimLeft, TrimRight, IsSpace;
    var behind := if Words(s) != [] && IsSpace(s[|s| - 1]) then " " else "";
    var front := if IsSpace(s[0]) then " " else "";
    assert Spaced(s) == front + inner + behind;
    TrimAround(front, inner, behind);
  }

  lemma TrimAround(front: string, inner: string, behind: string)
    requires (front == "" || front == " ") && (behind == "" || behind == " ") && (inner == "" ==> behind == "")
    requires inner != "" ==> !IsSpace(inner[0]) && !IsSpace(inner[|inner| - 1])
    ensures Trim(front + inner + behind, IsSpace) == inner
  {
    var tail := inner + behind;
    assert front + inner + behind == front + tail;
    FrontTrimmed(front, tail);
    BehindTrimmed(inner, behind);
  }

  lemma FrontTrimmed(front: string, tail: string)
    requires (front == "" || front == " ") && (tail != "" ==> !IsSpace(tail[0]))
    ensures TrimLeft(front + tail, IsSpace) == tail
  {
    var s := front + tail;
    if front == " " {
      assert s[0] == ' ' && s[1..] == tail && IsSpace(' ');
      hide IsSpace;
      assert TrimLeft(s, IsSpace) == TrimLeft(tail, IsSpace);
    } else {
      assert s == tail;
    }
    NothingToTrim(tail);
  }

  lemma NothingToTrim(tail: string)
    requires tail != "" ==> !IsSpace(tail[0])
    ensures TrimLeft(tail, IsSpace) == tail
  {
    hide IsSpace;
  }

  lemma BehindTrimmed(inner: string, behind: string)
    requires (behind == "" || behind == " ") && (inner != "" ==> !IsSpace(inner[|inner| - 1]))
    ensures TrimRight(inner + behind, IsSpace) == inner
  {
    assert TrimRight(inner, IsSpace) == inner;
    if behind == " " {
      assert (inner + behind)[..|inner|] == inner;
    } else {
      assert inner + behind == inner;
    }
  }

  /**
   * A key is made of the folded words of the mention: mentions that differ in case, in ё, or in
   * how their words are spaced and wrapped have one key, and only edges are trimmed of it.
   */
  lemma KeyIsOfWords(s: string)
    ensures Normalize(s) == Trim(Join(Words(FoldAll(s))), IsEdge)
    ensures forall t :: Words(FoldAll(t)) == Words(FoldAll(s)) ==> Normalize(t) == Normalize(s)
  {
    StrippedIsWords(FoldAll(s));
    forall t | Words(FoldAll(t)) == Words(FoldAll(s))
      ensures Normalize(t) == Normalize(s)
    {
      StrippedIsWords(FoldAll(t));
    }
  }

  /** A word in front of a space or of nothing is the first word. */
  lemma {:induction false} WordThen(w: string, t: string)
    requires w != "" && (forall c :: c in w ==> !IsSpace(c)) && (t == "" || IsSpace(t[0]))
    ensures Words(w + t) == [w] + Words(t)
    decreases |w|
  {
    var c, rest := w[0], w[1..];
    assert w + t == [c] + (rest + t) && c in w;
    WordsOfMore(c, rest + t);
    if rest == "" {
      assert rest + t == t && w == [c];
    } else {
      assert forall x :: x in rest ==> x in w;
      assert (rest + t)[0] == rest[0] && rest[0] in w;
      WordThen(rest, t);
      assert ([rest] + Words(t))[1..] == Words(t) && w == [c] + rest;
    }
  }

  /** Joining words and splitting them gives the words back. */
  lemma {:induction false} WordsOfJoin(words: seq<string>)
    requires forall w :: w in words ==> w != "" && forall c :: c in w ==> !IsSpace(c)
    ensures Words(Join(words)) == words
    decreases |words|
  {
    if words != [] {
      var w, rest := words[0], words[1..];
      assert w in words && forall x :: x in rest ==> x in words;
      WordsOfJoin(rest);
      if rest == [] {
        WordThen(w, "");
        assert w + "" == w && Words("") == [] && words == [w];
      } else {
        WordThen(w, " " + Join(rest));
        assert (" " + Join(rest))[1..] == Join(rest);
        assert Join(words) == w + (" " + Join(rest)) && words == [w] + rest;
      }
    }
  }

  /** The extraction hash is of the words: a text set in another way, however spaced, has the same one. */
  lemma HashIsOfWords(s: string, t: string)
    ensures ExtractionHash(Trim(Collapse(s), IsSpace)) == ExtractionHash(s)
    ensures ExtractionHash(s) == ExtractionHash(t) <==> Join(Words(s)) == Join(Words(t))
  {
    StrippedIsWords(s);
    WordsHaveNoSpace(s);
    WordsHaveNoSpace(t);
    WordsOfJoin(Words(s));
    WordsOfJoin(Words(t));
  }

  // --- resolution ------------------------------------------------------------------------------

  /** Entities by key, with their aliases. */
  type Vocabulary = map<string, set<string>>

  /** The entity `k` answers to the mention. */
  predicate Owns(v: Vocabulary, k: string, mention: string) {
    k in v && (mention == k || mention in v[k])
  }

  ghost predicate Known(v: Vocabulary, mention: string) {
    exists k :: Owns(v, k, mention)
  }

  /** A mention is the key or an alias of at most one entity. */
  ghost predicate Functional(v: Vocabulary) {
    forall j, k, m :: Owns(v, j, m) && Owns(v, k, m) ==> j == k
  }

  predicate IsNormal(mention: string) {
    Normalize(mention) == mention
  }

  /** `upsert_entity`: merge on the key, and add the alias. */
  function WithAlias(v: Vocabulary, k: string, alias: string): Vocabulary {
    v[k := (if k in v then v[k] else {}) + {alias}]
  }

  /** What `resolve` does with a normalised mention; `nearest` is the key the index answers within the threshold. */
  ghost predicate ResolvesMention(v: Vocabulary, mention: string, nearest: Option<string>, after: Vocabulary, key: string) {
    if mention == "" then after == v && key == ""
    else if Known(v, mention) then after == v && Owns(v, key, mention)
    else if nearest.Some? then key == nearest.value && after == WithAlias(v, key, mention)
    else key == mention && after == WithAlias(v, mention, mention)
  }

  /** `resolve`. */
  ghost predicate Resolves(v: Vocabulary, text: string, nearest: Option<string>, after: Vocabulary, key: string) {
    ResolvesMention(v, Normalize(text), nearest, after, key)
  }

  /** The index answers with an entity of the graph. */
  ghost predicate AnswersExisting(v: Vocabulary, nearest: Option<string>) {
    nearest.Some? ==> nearest.value in v
  }

  lemma WithAliasOwns(v: Vocabulary, key: string, mention: string)
    ensures forall k, m :: Owns(WithAlias(v, key, mention), k, m) <==> Owns(v, k, m) || (k == key && (m == key || m == mention))
  {
  }

  /**
   * A resolution keeps mentions unambiguous exactly when a key that the index answers, and
   * that is used, is an entity's key or nobody's alias.
   */
  lemma ResolutionKeepsFunctional(v: Vocabulary, mention: string, nearest: Option<string>, after: Vocabulary, key: string)
    requires Functional(v) && ResolvesMention(v, mention, nearest, after, key)
    ensures Functional(after) <==>
            (mention != "" && !Known(v, mention) && nearest.Some? && nearest.value !in v ==> !Known(v, nearest.value))
  {
    if mention != "" && !Known(v, mention) {
      WithAliasOwns(v, key, mention);
      if key !in v && Known(v, key) {
        var j :| Owns(v, j, key);
        assert Owns(after, j, key) && Owns(after, key, key);
      } else {
        AliasKeepsFunctional(v, key, mention);
      }
    }
  }

  lemma AliasKeepsFunctional(v: Vocabulary, key: string, mention: string)
    requires Functional(v) && !Known(v, mention) && (key in v || !Known(v, key))
    ensures Functional(WithAlias(v, key, mention))
  {
    WithAliasOwns(v, key, mention);
    assert key in v ==> Owns(v, key, key);
    forall j, k, m | Owns(WithAlias(v, key, mention), j, m) && Owns(WithAlias(v, key, mention), k, m)
      ensures j == k
    {
      assert Owns(v, j, m) ==> Known(v, m);
      assert Owns(v, k, m) ==> Known(v, m);
    }
  }

  /** What a mention resolves to is never forgotten. */
  lemma OwnershipStays(v: Vocabulary, mention: string, nearest: Option<string>, after: Vocabulary, key: string)
    requires ResolvesMention(v, mention, nearest, after, key)
    ensures forall k, m :: Owns(v, k, m) ==> Owns(after, k, m)
    ensures mention != "" ==> Owns(after, key, mention)
  {
    WithAliasOwns(v, key, mention);
  }

  /** A call, the normalised mention, what the index answered, and the key returned. */
  datatype Call = Call(text: string, mention: string, nearest: Option<string>, key: string)

  ghost predicate Answered(v: Vocabulary, c: Call, after: Vocabulary) {
    AnswersExisting(v, c.nearest) && ResolvesMention(v, c.mention, c.nearest, after, c.key)
  }

  /** Resolutions one after another, from an empty graph, whatever entities the index answers. */
  ghost predicate Chained(states: seq<Vocabulary>, calls: seq<Call>) {
    && |states| == |calls| + 1 && states[0] == map[]
    && forall i {:trigger calls[i]} :: 0 <= i < |calls| ==> Answered(states[i], calls[i], states[i + 1])
  }

  ghost predicate Session(states: seq<Vocabulary>, calls: seq<Call>) {
    Chained(states, calls) && forall i :: 0 <= i < |calls| ==> calls[i].mention == Normalize(calls[i].text)
  }

  /** In every state of a session a mention is the key or an alias of at most one entity. */
  lemma {:induction false} SessionFunctional(states: seq<Vocabulary>, calls: seq<Call>, n: nat)
    requires Chained(states, calls) && n <= |calls|
    ensures Functional(states[n])
  {
    if n > 0 {
      SessionFunctional(states, calls, n - 1);
      var c := calls[n - 1];
      assert Answered(states[n - 1], c, states[n]);
      ResolutionKeepsFunctional(states[n - 1], c.mention, c.nearest, states[n], c.key);
    }
  }

  /** What holds of every mention holds of every key; no key is empty. */
  lemma {:induction false} SessionKeys(states: seq<Vocabulary>, calls: seq<Call>, n: nat, p: string -> bool)
    requires Chained(states, calls) && n <= |calls| && forall i :: 0 <= i < |calls| ==> p(calls[i].mention)
    ensures forall k :: k in states[n] ==> k != "" && p(k)
  {
    if n > 0 {
      SessionKeys(states, calls, n - 1, p);
      var c := calls[n - 1];
      assert Answered(states[n - 1], c, states[n]);
      assert p(c.mention);
      forall k | k in states[n]
        ensures k != "" && p(k)
      {
        assert k in states[n - 1] || k == c.mention;
      }
    }
  }

  lemma SessionNormal(states: seq<Vocabulary>, calls: seq<Call>, n: nat, k: string)
    requires Session(states, calls) && n <= |calls| && k in states[n]
    ensures IsNormal(k)
  {
    forall i | 0 <= i < |calls|
      ensures IsNormal(calls[i].mention)
    {
      NormalizeIdempotent(calls[i].text);
    }
    SessionKeys(states, calls, n, IsNormal);
  }

  lemma {:induction false} OwnedLater(states: seq<Vocabulary>, calls: seq<Call>, i: nat, j: nat, k: string, mention: string)
    requires Chained(states, calls) && i <= j <= |calls| && Owns(states[i], k, mention)
    ensures Owns(states[j], k, mention)
    decreases j - i
  {
    if i < j {
      OwnedLater(states, calls, i, j - 1, k, mention);
      var c := calls[j - 1];
      OwnershipStays(states[j - 1], c.mention, c.nearest, states[j], c.key);
    }
  }

  /**
   * In every session, a mention once resolved resolves to the same key ever after, and
   * resolving that key returns it.
   */
  lemma {:induction false} ResolutionIsStable(states: seq<Vocabulary>, calls: seq<Call>, i: nat, j: nat)
    requires Session(states, calls) && i < j < |calls|
    requires calls[j].mention == calls[i].mention || calls[j].text == calls[i].key
    ensures calls[j].key == calls[i].key
  {
    var a, b := calls[i], calls[j];
    assert Answered(states[i], a, states[i + 1]) && Answered(states[j], b, states[j + 1]);
    if a.mention == "" {
      EmptyAnswers(states[i], a, states[i + 1], states[j], b, states[j + 1]);
    } else {
      ResolvedStays(states, calls, i, j);
      SessionNormal(states, calls, j, a.key);
      OwnedMention(states[j], a, b);
      OwnerResolves(states, calls, j, a.key);
    }
  }

  lemma {:induction false} ResolvedStays(states: seq<Vocabulary>, calls: seq<Call>, i: nat, j: nat)
    requires Chained(states, calls) && i < j < |calls| && calls[i].mention != ""
    ensures Owns(states[j], calls[i].key, calls[i].mention)
  {
    var a := calls[i];
    assert Answered(states[i], a, states[i + 1]);
    OwnershipStays(states[i], a.mention, a.nearest, states[i + 1], a.key);
    OwnedLater(states, calls, i + 1, j, a.key, a.mention);
  }

  lemma {:induction false} OwnerResolves(states: seq<Vocabulary>, calls: seq<Call>, j: nat, key: string)
    requires Chained(states, calls) && j < |calls| && Owns(states[j], key, calls[j].mention)
    ensures calls[j].mention != "" ==> calls[j].key == key
  {
    assert Answered(states[j], calls[j], states[j + 1]);
    SessionFunctional(states, calls, j);
    OwnerAnswers(states[j], key, calls[j], states[j + 1]);
  }

  /** An empty mention has the empty key, which is an empty mention again. */
  lemma EmptyAnswers(v: Vocabulary, a: Call, after: Vocabulary, w: Vocabulary, b: Call, later: Vocabulary)
    requires Answered(v, a, after) && Answered(w, b, later) && a.mention == "" && b.mention == Normalize(b.text)
    requires b.mention == a.mention || b.text == a.key
    ensures b.key == a.key
  {
    EmptyIsNormal();
  }

  /** The key of a resolved mention owns the mention, and itself. */
  lemma OwnedMention(v: Vocabulary, a: Call, b: Call)
    requires a.mention != "" && Owns(v, a.key, a.mention) && IsNormal(a.key) && b.mention == Normalize(b.text)
    requires b.mention == a.mention || b.text == a.key
    ensures Owns(v, a.key, b.mention)
  {
  }

  /** A mention that an entity owns resolves to that entity. */
  lemma OwnerAnswers(v: Vocabulary, key: string, c: Call, after: Vocabulary)
    requires Functional(v) && Owns(v, key, c.mention) && Answered(v, c, after)
    ensures c.mention != "" ==> c.key == key
  {
    assert Known(v, c.mention);
  }

  // --- the resolver ------------------------------------------------------------------------------

  class EntityResolver {
    var entities: Vocabulary

    constructor ()
      ensures entities == map[]
    {
      entities := map[];
    }

    /** `get_entity`: some entity with this key or alias. */
    method GetEntity(mention: string) returns (key: Option<string>)
      ensures key.Some? ==> Owns(entities, key.value, mention)
      ensures key == None ==> !Known(entities, mention)
    {
      var keys := entities.Keys;
      while keys != {}
        invariant keys <= entities.Keys && forall k :: k in entities && k !in keys ==> !Owns(entities, k, mention)
        decreases keys
      {
        var k :| k in keys;
        if Owns(entities, k, mention) {
          return Some(k);
        }
        keys := keys - {k};
      }
      key := None;
    }

    method Resolve(text: string, nearest: Option<string>) returns (key: string)
      modifies this
      ensures Resolves(old(entities), text, nearest, entities, key)
    {
      var mention := Normalize(text);
      if mention == "" {
        return "";
      }
      var exact := GetEntity(mention);
      if exact.Some? {
        assert Known(entities, mention);
        return exact.value;
      }
      key := if nearest.Some? then nearest.value else mention;
      entities := WithAlias(entities, key, mention);
    }
  }
}
