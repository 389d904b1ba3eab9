/**
 * Whether a quoted restriction is grounded in its clause (src/pipeline/extractor.py): the
 * greedy test on tokens is complete, and what accepting a quote with a linked lead-in means.
 */
module Grounding {
  import opened Wrappers

  type Token = string

  type Tokens = seq<Token>

  // --- embeddings ---------------------------------------------------------------------------

  /** `at` places the tokens of the needle in the haystack, in order. */
  ghost predicate Embeds(needle: Tokens, haystack: Tokens, at: seq<nat>) {
    && |at| == |needle|
    && (forall i :: 0 <= i < |at| ==> at[i] < |haystack| && haystack[at[i]] == needle[i])
    && (forall i, j :: 0 <= i < j < |at| ==> at[i] < at[j])
  }

  /** The needle's tokens occur in the haystack in the same order. */
  ghost predicate Embedded(needle: Tokens, haystack: Tokens) {
    exists at :: Embeds(needle, haystack, at)
  }

  /** The greedy matching: every token takes its first occurrence after the one before. */
  function Greedy(needle: Tokens, haystack: Tokens): bool {
    needle == [] || (haystack != [] && Greedy(if haystack[0] == needle[0] then needle[1..] else needle, haystack[1..]))
  }

  lemma {:induction false} GreedySound(needle: Tokens, haystack: Tokens) returns (at: seq<nat>)
    requires Greedy(needle, haystack)
    ensures Embeds(needle, haystack, at)
  {
    if needle == [] {
      at := [];
    } else if haystack[0] == needle[0] {
      var rest := GreedySound(needle[1..], haystack[1..]);
      at := [0] + seq(|rest|, i requires 0 <= i < |rest| => rest[i] + 1);
    } else {
      var rest := GreedySound(needle, haystack[1..]);
      at := seq(|rest|, i requires 0 <= i < |rest| => rest[i] + 1);
    }
  }

  /** Giving the first token its first occurrence leaves the most for the others. */
  lemma {:induction false} GreedyComplete(needle: Tokens, haystack: Tokens, at: seq<nat>)
    requires Embeds(needle, haystack, at)
    ensures Greedy(needle, haystack)
    decreases |haystack|
  {
    if needle != [] {
      assert at[0] < |haystack|;
      if haystack[0] == needle[0] {
        var rest := at[1..];
        assert forall i :: 0 <= i < |rest| ==> rest[i] > at[0];
        GreedyComplete(needle[1..], haystack[1..], seq(|rest|, i requires 0 <= i < |rest| => rest[i] - 1));
      } else {
        assert forall i :: 0 < i < |at| ==> at[i] > at[0];
        GreedyComplete(needle, haystack[1..], seq(|at|, i requires 0 <= i < |at| => at[i] - 1));
      }
    }
  }

  lemma GreedyExact(needle: Tokens, haystack: Tokens)
    ensures Greedy(needle, haystack) <==> Embedded(needle, haystack)
  {
    if Greedy(needle, haystack) {
      var at := GreedySound(needle, haystack);
    }
    if at :| Embeds(needle, haystack, at) {
      GreedyComplete(needle, haystack, at);
    }
  }

  /** `_is_ordered_subsequence`: an iterator over the haystack is consumed by membership tests. */
  method IsOrderedSubsequence(needle: Tokens, haystack: Tokens) returns (found: bool)
    ensures found <==> Embedded(needle, haystack)
  {
    GreedyExact(needle, haystack);
    var next := 0;
    for i := 0 to |needle|
      invariant next <= |haystack|
      invariant Greedy(needle, haystack) <==> Greedy(needle[i..], haystack[next..])
    {
      while next < |haystack| && haystack[next] != needle[i]
        invariant next <= |haystack|
        invariant Greedy(needle, haystack) <==> Greedy(needle[i..], haystack[next..])
      {
        assert haystack[next..][1..] == haystack[next + 1..];
        next := next + 1;
      }
      if next == |haystack| {
        return false;
      }
      assert needle[i..][1..] == needle[i + 1..] && haystack[next..][1..] == haystack[next + 1..];
      next := next + 1;
    }
    found := true;
  }

  // --- a quote whose lead-in is linked -----------------------------------------------------------

  lemma PrefixEmbeds(needle: Tokens, first: Tokens, second: Tokens, k: nat, at: seq<nat>)
    requires Embeds(needle, first + second, at) && k <= |needle|
    requires (forall i :: 0 <= i < k ==> at[i] < |first|) && (forall i :: k <= i < |at| ==> at[i] >= |first|)
    ensures Embedded(needle[..k], first) && Embedded(needle[k..], second)
  {
    assert Embeds(needle[..k], first, at[..k]) by {
      assert forall i :: 0 <= i < k ==> first[at[i]] == (first + second)[at[i]];
    }
    var rest := at[k..];
    var shifted: seq<nat> := seq(|rest|, i requires 0 <= i < |rest| => rest[i] - |first|);
    assert Embeds(needle[k..], second, shifted) by {
      assert forall i :: 0 <= i < |rest| ==> second[rest[i] - |first|] == (first + second)[rest[i]];
    }
  }

  lemma {:induction false} SplitPoint(at: seq<nat>, n: nat) returns (k: nat)
    requires forall i, j :: 0 <= i < j < |at| ==> at[i] < at[j]
    ensures k <= |at| && (forall i :: 0 <= i < k ==> at[i] < n) && (forall i :: k <= i < |at| ==> at[i] >= n)
  {
    if at == [] || at[|at| - 1] < n {
      k := |at|;
    } else {
      var init := at[..|at| - 1];
      k := SplitPoint(init, n);
      assert forall i :: 0 <= i < |init| ==> at[i] == init[i];
    }
  }

  lemma JoinEmbeds(needle: Tokens, first: Tokens, second: Tokens, k: nat, a: seq<nat>, b: seq<nat>)
    requires k <= |needle| && Embeds(needle[..k], first, a) && Embeds(needle[k..], second, b)
    ensures Embedded(needle, first + second)
  {
    var at := a + seq(|b|, i requires 0 <= i < |b| => b[i] + |first|);
    forall i | 0 <= i < |needle|
      ensures at[i] < |first + second| && (first + second)[at[i]] == needle[i]
    {
      if i < k {
        assert needle[..k][i] == needle[i];
      } else {
        assert needle[k..][i - k] == needle[i];
      }
    }
    assert Embeds(needle, first + second, at);
  }

  /**
   * Accepting a quote against a linked text followed by the clause means that it splits into
   * a part embedded in the linked text and a part embedded in the clause.
   */
  lemma EmbeddedInBoth(needle: Tokens, first: Tokens, second: Tokens)
    ensures Embedded(needle, first + second)
            <==> exists k :: 0 <= k <= |needle| && Embedded(needle[..k], first) && Embedded(needle[k..], second)
  {
    if at :| Embeds(needle, first + second, at) {
      var k := SplitPoint(at, |first|);
      PrefixEmbeds(needle, first, second, k, at);
    }
    if k :| 0 <= k <= |needle| && Embedded(needle[..k], first) && Embedded(needle[k..], second) {
      var a :| Embeds(needle[..k], first, a);
      var b :| Embeds(needle[k..], second, b);
      JoinEmbeds(needle, first, second, k, a, b);
    }
  }

  // --- grounding -------------------------------------------------------------------------------------

  /** A clause as the quote is compared with it: verbatim, by its tokens, and by the value's quantity. */
  datatype Passage = Passage(verbatim: bool, tokens: Tokens, states: bool)

  datatype Verdict = UngroundedText | ContextOnly | UngroundedQuantity | Grounded(source: Option<nat>)

  ghost predicate QuoteIn(quote: Tokens, p: Passage) {
    p.verbatim || Embedded(quote, p.tokens)
  }

  ghost predicate InSome(quote: Tokens, related: seq<Passage>) {
    exists i :: 0 <= i < |related| && QuoteIn(quote, related[i])
  }

  /** How many tokens of the quote, repetitions included, occur in the clause. */
  function Shared(quote: Tokens, own: set<Token>): nat {
    if quote == [] then 0 else (if quote[0] in own then 1 else 0) + Shared(quote[1..], own)
  }

  function Distinct(tokens: Tokens): set<Token> {
    set t | t in tokens
  }

  function AtMostTwo(n: nat): nat {
    if n < 2 then n else 2
  }

  /** The lead-in is linked and enough of the quote occurs in the clause. */
  ghost predicate LeadInLinked(quote: Tokens, clause: Passage, related: seq<Passage>) {
    && (exists i :: 0 <= i < |related| && Embedded(quote, related[i].tokens + clause.tokens))
    && EnoughShared(quote, clause.tokens)
  }

  /** Two places of the quote hold tokens of the clause; one is enough when the clause has one token only. */
  ghost predicate EnoughShared(quote: Tokens, own: Tokens) {
    || (exists i, j :: 0 <= i < j < |quote| && quote[i] in own && quote[j] in own)
    || ((forall i, j :: 0 <= i < |own| && 0 <= j < |own| ==> own[i] == own[j])
        && (own == [] || exists i :: 0 <= i < |quote| && quote[i] in own))
  }

  lemma {:induction false} SharedPlaces(quote: Tokens, own: set<Token>)
    ensures Shared(quote, own) >= 1 <==> exists i :: 0 <= i < |quote| && quote[i] in own
    ensures Shared(quote, own) >= 2 <==> exists i, j :: 0 <= i < j < |quote| && quote[i] in own && quote[j] in own
    decreases |quote|
  {
    if quote != [] {
      var rest := quote[1..];
      SharedPlaces(rest, own);
      assert forall i :: 0 < i < |quote| ==> quote[i] == rest[i - 1];
      if Shared(rest, own) >= 1 {
        var i :| 0 <= i < |rest| && rest[i] in own;
        assert quote[i + 1] in own;
      }
      if Shared(rest, own) >= 2 {
        var i, j :| 0 <= i < j < |rest| && rest[i] in own && rest[j] in own;
        assert quote[i + 1] in own && quote[j + 1] in own;
      }
      if i, j :| 0 <= i < j < |quote| && quote[i] in own && quote[j] in own {
        assert rest[j - 1] in own && (i > 0 ==> rest[i - 1] in own);
      }
      if i :| 0 <= i < |quote| && quote[i] in own {
        assert i > 0 ==> rest[i - 1] in own;
      }
    }
  }

  lemma DistinctSize(own: Tokens)
    ensures |Distinct(own)| == 0 <==> own == []
    ensures |Distinct(own)| <= 1 <==> forall i, j :: 0 <= i < |own| && 0 <= j < |own| ==> own[i] == own[j]
  {
    if own != [] {
      assert own[0] in Distinct(own);
      var others := Distinct(own) - {own[0]};
      assert |Distinct(own)| == 1 + |others|;
      if forall i, j :: 0 <= i < |own| && 0 <= j < |own| ==> own[i] == own[j] {
        assert others == {};
      } else {
        var i, j :| 0 <= i < |own| && 0 <= j < |own| && own[i] != own[j];
        assert (if own[i] == own[0] then own[j] else own[i]) in others;
      }
    }
  }

  lemma EnoughSharedExactly(quote: Tokens, own: Tokens)
    ensures Shared(quote, Distinct(own)) >= AtMostTwo(|Distinct(own)|) <==> EnoughShared(quote, own)
  {
    SharedPlaces(quote, Distinct(own));
    DistinctSize(own);
  }

  method AnyRelated(quote: Tokens, related: seq<Passage>) returns (found: bool)
    ensures found <==> InSome(quote, related)
  {
    for i := 0 to |related|
      invariant forall k :: 0 <= k < i ==> !QuoteIn(quote, related[k])
    {
      var embedded := IsOrderedSubsequence(quote, related[i].tokens);
      if related[i].verbatim || embedded {
        return true;
      }
    }
    found := false;
  }

  method AnyLeadIn(quote: Tokens, own: Tokens, related: seq<Passage>) returns (found: bool)
    ensures found <==> exists i :: 0 <= i < |related| && Embedded(quote, related[i].tokens + own)
  {
    for i := 0 to |related|
      invariant forall k :: 0 <= k < i ==> !Embedded(quote, related[k].tokens + own)
    {
      var embedded := IsOrderedSubsequence(quote, related[i].tokens + own);
      if embedded {
        return true;
      }
    }
    found := false;
  }

  /** The quote's text is supported by the clause, alone or after a linked lead-in. */
  ghost predicate TextGrounded(quote: Tokens, clause: Passage, related: seq<Passage>) {
    quote != [] && (QuoteIn(quote, clause) || (!InSome(quote, related) && LeadInLinked(quote, clause, related)))
  }

  /** `_ground`; `quoted` is whether the quote states the value, `valued` whether there is one. */
  method Ground(quote: Tokens, clause: Passage, related: seq<Passage>, valued: bool, quoted: bool) returns (v: Verdict)
    ensures v == ContextOnly <==> quote != [] && !QuoteIn(quote, clause) && InSome(quote, related)
    ensures v == UngroundedText <==> !TextGrounded(quote, clause, related) && v != ContextOnly
    ensures TextGrounded(quote, clause, related) ==>
              (v == UngroundedQuantity <==> valued && !quoted && forall i :: 0 <= i < |related| ==> !related[i].states)
    ensures TextGrounded(quote, clause, related) && valued && !(quoted && clause.states) && (exists i :: 0 <= i < |related| && related[i].states) ==>
              v.Grounded? && v.source.Some?
    ensures v.Grounded? && v.source.Some? ==>
              valued && v.source.value < |related| && related[v.source.value].states && !(quoted && clause.states)
              && forall i :: 0 <= i < v.source.value ==> !related[i].states
  {
    if quote == [] {
      return UngroundedText;
    }
    var own := clause.tokens;
    var embedded := IsOrderedSubsequence(quote, own);
    if !(clause.verbatim || embedded) {
      var elsewhere := AnyRelated(quote, related);
      if elsewhere {
        return ContextOnly;
      }
      var leadIn := AnyLeadIn(quote, own, related);
      EnoughSharedExactly(quote, own);
      if !leadIn || Shared(quote, Distinct(own)) < AtMostTwo(|Distinct(own)|) {
        return UngroundedText;
      }
    }
    if !valued || (quoted && clause.states) {
      return Grounded(None);
    }
    for i := 0 to |related|
      invariant forall k :: 0 <= k < i ==> !related[k].states
    {
      if related[i].states {
        return Grounded(Some(i));
      }
    }
    v := if quoted then Grounded(None) else UngroundedQuantity;
  }

  /**
   * A quote accepted with a linked lead-in ends in the clause: in every split into a part of
   * the linked text and a part of the clause, the clause's part is not empty.
   */
  lemma LeadInEndsInClause(quote: Tokens, clause: Passage, related: seq<Passage>, i: nat, k: nat)
    requires TextGrounded(quote, clause, related) && !QuoteIn(quote, clause)
    requires i < |related| && k <= |quote| && Embedded(quote[..k], related[i].tokens) && Embedded(quote[k..], clause.tokens)
    ensures 0 < k < |quote|
  {
    assert quote[..|quote|] == quote && quote[0..] == quote;
    assert QuoteIn(quote, related[i]) ==> InSome(quote, related);
  }

  lemma PartEmbeds(needle: Tokens, haystack: Tokens, from: nat, upTo: nat)
    requires from <= upTo <= |needle| && Embedded(needle, haystack)
    ensures Embedded(needle[from..upTo], haystack)
  {
    var at :| Embeds(needle, haystack, at);
    assert Embeds(needle[from..upTo], haystack, at[from..upTo]);
  }

  /** The quote splits into a linked part and a part of the clause of at least two tokens. */
  ghost predicate EndsWithTwoOwn(quote: Tokens, linked: Tokens, own: Tokens) {
    exists k :: 0 <= k <= |quote| - 2 && Embedded(quote[..k], linked) && Embedded(quote[k..], own)
  }

  /**
   * A quote accepted with the lead-in of a linked text has at least two tokens, and the end
   * that is the clause's own can be taken to have two exactly when the last two tokens of the
   * quote occur in the clause in their order.
   */
  lemma TwoOwnTokensExactly(quote: Tokens, clause: Passage, related: seq<Passage>, i: nat)
    requires TextGrounded(quote, clause, related) && !QuoteIn(quote, clause)
    requires i < |related| && Embedded(quote, related[i].tokens + clause.tokens)
    ensures |quote| >= 2
    ensures EndsWithTwoOwn(quote, related[i].tokens, clause.tokens) <==> Embedded(quote[|quote| - 2..], clause.tokens)
  {
    var linked, own, n := related[i].tokens, clause.tokens, |quote|;
    EmbeddedInBoth(quote, linked, own);
    var k: nat :| k <= n && Embedded(quote[..k], linked) && Embedded(quote[k..], own);
    LeadInEndsInClause(quote, clause, related, i, k);
    if Embedded(quote[n - 2..], own) && k == n - 1 {
      PartEmbeds(quote[..k], linked, 0, n - 2);
      assert quote[..k][0..n - 2] == quote[..n - 2];
    }
    if k: nat :| k <= n - 2 && Embedded(quote[..k], linked) && Embedded(quote[k..], own) {
      PartEmbeds(quote[k..], own, n - 2 - k, n - k);
      assert quote[k..][n - 2 - k..n - k] == quote[n - 2..];
    }
  }

  /**
   * Such a quote whose end has one token: the two shared tokens may lie in the lead-in.
   */
  lemma OneOwnTokenIsEnough()
    ensures var quote, linked, own := ["p", "q", "r"], ["p", "q"], ["r", "q"];
      var clause := Passage(false, own, false); var related := [Passage(false, linked, false)];
      && TextGrounded(quote, clause, related)
      && !EndsWithTwoOwn(quote, linked, own)
  {
    var quote, linked, own := ["p", "q", "r"], ["p", "q"], ["r", "q"];
    var clause := Passage(false, own, false);
    var related := [Passage(false, linked, false)];
    assert linked + own == ["p", "q", "r", "q"];
    assert Embeds(quote, linked + own, [0, 1, 2]);
    assert related[0].tokens + clause.tokens == linked + own;
    GreedyExact(quote, own);
    GreedyExact(quote, linked);
    assert Distinct(own) == {"r", "q"};
    assert quote[1..] == ["q", "r"] && quote[1..][1..] == ["r"] && quote[1..][1..][1..] == [];
    assert "p"[0] == 'p' && "q"[0] == 'q' && "r"[0] == 'r';
    assert quote[1] in own && quote[2] in own;
    assert quote[|quote| - 2..] == ["q", "r"];
    GreedyExact(["q", "r"], own);
    TwoOwnTokensExactly(quote, clause, related, 0);
  }
}
