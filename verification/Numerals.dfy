/**
 * Russian cardinals in words (src/pipeline/extractor.py): the reader accepts exactly the
 * canonical writings of the numbers up to 999999, and leaves every other phrase alone.
 */
module Numerals {
  import opened Wrappers

  /** What a number word stands for. */
  datatype Number = Whole(n: nat) | OneAndHalf

  /** The values of `_CARDINALS`. */
  predicate IsCardinal(x: Number) {
    match x
    case OneAndHalf => true
    case Whole(n) =>
      n <= 20 || (20 < n < 100 && n % 10 == 0) || (100 <= n < 1000 && n % 100 == 0) || n == 1000
  }

  ghost predicate AreCardinals(words: seq<Number>) {
    forall i :: 0 <= i < |words| ==> IsCardinal(words[i])
  }

  // --- writing ------------------------------------------------------------------------------

  /** Hundreds, then tens and ones or a number from ten to nineteen; nothing for zero. */
  function Group(n: nat): (words: seq<Number>)
    requires n < 1000
  {
    Parts(n / 100, n % 100)
  }

  function Parts(hundreds: nat, rest: nat): seq<Number>
    requires rest < 100
  {
    (if hundreds == 0 then [] else [Whole(hundreds * 100)]) + Tens(rest)
  }

  function Tens(n: nat): seq<Number>
    requires n < 100
  {
    if n < 10 then Ones(n)
    else if n < 20 then [Whole(n)]
    else [Whole(n / 10 * 10)] + Ones(n % 10)
  }

  function Ones(n: nat): seq<Number>
    requires n < 10
  {
    if n == 0 then [] else [Whole(n)]
  }

  const THOUSAND := Whole(1000)

  /** The words for some thousands; a single one may be just "thousand". */
  predicate IsHead(words: seq<Number>, thousands: nat)
    requires thousands < 1000
  {
    if thousands == 0 then words == []
    else words == Group(thousands) + [THOUSAND] || (thousands == 1 && words == [THOUSAND])
  }

  /** A number in words, with a single thousand written just "thousand". */
  function Written(n: nat): seq<Number>
    requires 1 <= n <= 999999
  {
    Canonical(n / 1000) + Group(n % 1000)
  }

  function Canonical(thousands: nat): (head: seq<Number>)
    requires thousands < 1000
    ensures IsHead(head, thousands)
  {
    if thousands == 0 then [] else if thousands == 1 then [THOUSAND] else Group(thousands) + [THOUSAND]
  }

  /** The phrase writes the number, with or without "one" before a single thousand. */
  predicate Writes(words: seq<Number>, n: nat)
    requires 1 <= n <= 999999
  {
    words == Written(n) || (n / 1000 == 1 && words == [Whole(1), THOUSAND] + Group(n % 1000))
  }

  // --- reading -------------------------------------------------------------------------------

  /** The loop's variables. */
  datatype State = State(total: nat, group: nat, previous: nat)

  const START := State(0, 0, 4)

  function Rank(n: nat): nat {
    if n >= 100 then 3 else if n >= 10 then 2 else 1
  }

  /** One word; `None` leaves the whole phrase as it is. */
  function Step(s: State, x: Number): Option<State> {
    match x
    case OneAndHalf => None
    case Whole(n) =>
      if n == 1000 && s.total == 0 then Some(State((if s.group == 0 then 1 else s.group) * 1000, 0, 4))
      // A part of no lower rank than the one before would begin another number.
      else if n == 0 || n == 1000 || Rank(n) >= s.previous then None
      else Some(State(s.total, s.group + n, if 10 <= n < 20 then 1 else Rank(n)))
  }

  function Fold(words: seq<Number>): Option<State> {
    if words == [] then Some(START)
    else
      var n := |words| - 1;
      match Fold(words[..n])
      case None => None
      case Some(s) => Step(s, words[n])
  }

  /** The value that replaces a phrase, if any. */
  function Read(words: seq<Number>): Option<Number>
    requires words != []
  {
    if |words| == 1 then Some(words[0])
    else
      match Fold(words)
      case None => None
      case Some(s) => Some(Whole(s.total + s.group))
  }

  /** The replacement in `_numerals_to_digits`. */
  method ReadPhrase(words: seq<Number>) returns (value: Option<Number>)
    requires words != []
    ensures value == Read(words)
    ensures |words| == 1 ==> value == Some(words[0])
  {
    if |words| == 1 {
      return Some(words[0]);
    }
    var total: nat, group: nat, previous: nat := 0, 0, 4;
    assert words[..0] == [];
    for i := 0 to |words|
      invariant Fold(words[..i]) == Some(State(total, group, previous))
    {
      assert words[..i + 1][..i] == words[..i];
      match words[i] {
        case OneAndHalf =>
          NoneStays(words, i + 1);
          return None;
        case Whole(n) =>
          if n == 1000 && total == 0 {
            total := (if group == 0 then 1 else group) * 1000;
            group, previous := 0, 4;
          } else {
            var rank := if n >= 100 then 3 else if n >= 10 then 2 else 1;
            if n == 0 || n == 1000 || rank >= previous {
              NoneStays(words, i + 1);
              return None;
            }
            group := group + n;
            previous := if 10 <= n < 20 then 1 else rank;
          }
      }
    }
    assert words[..|words|] == words;
    value := Some(Whole(total + group));
  }

  lemma {:induction false} NoneStays(words: seq<Number>, i: nat)
    requires i <= |words| && Fold(words[..i]) == None
    ensures Fold(words) == None
    decreases |words|
  {
    if i == |words| {
      assert words[..i] == words;
    } else {
      assert words[..|words| - 1][..i] == words[..i];
      NoneStays(words[..|words| - 1], i);
    }
  }

  // --- reading undoes writing -------------------------------------------------------------------

  /** The rank that the last part of a group leaves. */
  function LastRank(n: nat): nat
    requires n < 1000
  {
    if n == 0 then 4
    else if n % 100 == 0 then 3
    else if n % 10 == 0 && n % 100 != 10 then 2
    else 1
  }

  /** The words read so far are a head and a group, and the state holds their values. */
  ghost predicate Holds(words: seq<Number>, s: State, head: seq<Number>, thousands: nat) {
    && s.group < 1000 && s.previous == LastRank(s.group)
    && thousands < 1000 && s.total == 1000 * thousands
    && IsHead(head, thousands) && words == head + Group(s.group)
  }

  lemma HundredsSplit(h: nat, r: nat)
    requires h < 10 && r < 100
    ensures (100 * h + r) / 100 == h && (100 * h + r) % 100 == r
  {
  }

  lemma TensSplit(t: nat, u: nat)
    requires t < 10 && u < 10
    ensures (10 * t + u) / 10 == t && (10 * t + u) % 10 == u
  {
  }

  lemma AddHundreds(n: nat)
    requires 100 <= n < 1000 && n % 100 == 0
    ensures Group(n) == Group(0) + [Whole(n)] && LastRank(n) == 3
  {
    assert n / 100 * 100 == n;
  }

  lemma AddTens(g: nat, n: nat)
    requires g < 1000 && g % 100 == 0 && 10 <= n < 100 && (n < 20 || n % 10 == 0)
    ensures g + n < 1000 && Group(g + n) == Group(g) + [Whole(n)]
    ensures LastRank(g + n) == if n < 20 then 1 else 2
  {
    var h := g / 100;
    HundredsSplit(h, n);
    assert g == 100 * h;
    assert Tens(n) == [Whole(n)] by {
      assert n >= 20 ==> n / 10 * 10 == n;
    }
    assert Group(g) == (if h == 0 then [] else [Whole(h * 100)]) + [];
    assert n % 10 == 0 && n != 10 ==> (100 * h + n) % 10 == 0 by {
      TenDivides(h, n);
    }
    TenDivides(h, n);
  }

  lemma TenDivides(h: nat, n: nat)
    ensures (100 * h + n) % 10 == n % 10
  {
  }

  lemma AddOnes(g: nat, n: nat)
    requires g < 1000 && g % 10 == 0 && g % 100 != 10 && 1 <= n < 10
    ensures g + n < 1000 && Group(g + n) == Group(g) + [Whole(n)]
    ensures LastRank(g + n) == 1
  {
    var h, r := g / 100, g % 100;
    TenDivides(h, r);
    var t := r / 10;
    assert r == 10 * t;
    TensSplit(t, n);
    HundredsSplit(h, r + n);
    TenDivides(h, r + n);
    assert g + n == 100 * h + (r + n);
    assert Tens(r + n) == Tens(r) + [Whole(n)];
    var hundreds := if h == 0 then [] else [Whole(h * 100)];
    assert hundreds + (Tens(r) + [Whole(n)]) == hundreds + Tens(r) + [Whole(n)];
  }

  /** A part that may follow extends the writing of a group. */
  lemma GroupGrows(g: nat, n: nat)
    requires g < 1000 && IsCardinal(Whole(n)) && 0 < n < 1000 && Rank(n) < LastRank(g)
    ensures g + n < 1000 && Group(g + n) == Group(g) + [Whole(n)]
    ensures LastRank(g + n) == if 10 <= n < 20 then 1 else Rank(n)
  {
    if n >= 100 {
      AddHundreds(n);
    } else if n >= 10 {
      AddTens(g, n);
    } else {
      AddOnes(g, n);
    }
  }

  lemma ThousandHolds(words: seq<Number>, s: State)
    requires Holds(words, s, [], 0)
    ensures var t := Step(s, THOUSAND).value; Holds(words + [THOUSAND], t, words + [THOUSAND], if s.group == 0 then 1 else s.group)
  {
    assert words == Group(s.group);
    assert Group(0) == [];
    assert words + [THOUSAND] == words + [THOUSAND] + Group(0);
  }

  lemma PartHolds(words: seq<Number>, s: State, head: seq<Number>, thousands: nat, n: nat)
    requires Holds(words, s, head, thousands) && IsCardinal(Whole(n)) && 0 < n < 1000 && Rank(n) < s.previous
    ensures Holds(words + [Whole(n)], State(s.total, s.group + n, if 10 <= n < 20 then 1 else Rank(n)), head, thousands)
  {
    GroupGrows(s.group, n);
    assert head + Group(s.group) + [Whole(n)] == head + (Group(s.group) + [Whole(n)]);
  }

  lemma {:induction false} FoldHolds(words: seq<Number>) returns (head: seq<Number>, thousands: nat)
    requires AreCardinals(words) && Fold(words).Some?
    ensures Holds(words, Fold(words).value, head, thousands)
  {
    if words == [] {
      assert Group(0) == [];
      head, thousands := [], 0;
    } else {
      var n := |words| - 1;
      head, thousands := FoldHolds(words[..n]);
      var s := Fold(words[..n]).value;
      assert words == words[..n] + [words[n]];
      if words[n] == THOUSAND {
        ThousandHolds(words[..n], s);
        head, thousands := words, if s.group == 0 then 1 else s.group;
      } else {
        PartHolds(words[..n], s, head, thousands, words[n].n);
      }
    }
  }

  lemma {:induction false} FoldJoin(a: seq<Number>, b: seq<Number>, s: State)
    requires Fold(a) == Some(s)
    ensures b == [] ==> Fold(a + b) == Some(s)
    ensures |b| == 1 ==> Fold(a + b) == Step(s, b[0])
    ensures |b| == 2 && Step(s, b[0]).Some? ==> Fold(a + b) == Step(Step(s, b[0]).value, b[1])
  {
    if b == [] {
      assert a + b == a;
    } else if |b| == 1 {
      assert (a + b)[..|a|] == a;
    } else if |b| == 2 {
      assert (a + b)[..|a| + 1] == a + [b[0]];
      assert (a + [b[0]])[..|a|] == a;
    }
  }

  lemma ReadsTens(a: seq<Number>, s: State, n: nat)
    requires Fold(a) == Some(s) && n < 100 && (s.previous == 4 || s.previous == 3)
    ensures Fold(a + Tens(n)).Some?
    ensures var t := Fold(a + Tens(n)).value; t.total == s.total && t.group == s.group + n && (n == 0 ==> t == s)
  {
    FoldJoin(a, Tens(n), s);
  }

  /** From any state that begins a group, the words are read as `n`. */
  ghost predicate ReadAs(words: seq<Number>, n: nat) {
    forall a, s :: Fold(a) == Some(s) && s.group == 0 && s.previous == 4 ==>
      Fold(a + words).Some? && Fold(a + words).value.total == s.total && Fold(a + words).value.group == n
  }

  lemma ReadsGroup(n: nat)
    requires n < 1000
    ensures ReadAs(Group(n), n)
  {
    forall a, s | Fold(a) == Some(s) && s.group == 0 && s.previous == 4
      ensures Fold(a + Group(n)).Some? && Fold(a + Group(n)).value.total == s.total && Fold(a + Group(n)).value.group == n
    {
      ReadsParts(a, s, n / 100, n % 100);
    }
  }

  lemma ReadsParts(a: seq<Number>, s: State, h: nat, r: nat)
    requires Fold(a) == Some(s) && h < 10 && r < 100 && s.group == 0 && s.previous == 4
    ensures Fold(a + Parts(h, r)).Some?
    ensures var t := Fold(a + Parts(h, r)).value; t.total == s.total && t.group == 100 * h + r
  {
    if h == 0 {
      ReadsTens(a, s, r);
      assert a + Tens(r) == a + Parts(h, r);
    } else {
      ReadsHundreds(a, s, h);
      var hundreds := [Whole(h * 100)];
      ReadsTens(a + hundreds, State(s.total, h * 100, 3), r);
      assert a + hundreds + Tens(r) == a + Parts(h, r);
    }
  }

  lemma ReadsHundreds(a: seq<Number>, s: State, h: nat)
    requires Fold(a) == Some(s) && 1 <= h < 10 && s.group == 0 && s.previous == 4
    ensures Fold(a + [Whole(h * 100)]) == Some(State(s.total, h * 100, 3))
  {
    FoldJoin(a, [Whole(h * 100)], s);
  }

  lemma ReadsThousand(before: seq<Number>, s: State, rest: seq<Number>, g: nat)
    requires Fold(before) == Some(s) && s.total == 0 && ReadAs(rest, g)
    ensures var words := before + [THOUSAND] + rest; var total := (if s.group == 0 then 1 else s.group) * 1000;
      Fold(words).Some? && Fold(words).value.total == total && Fold(words).value.group == g
  {
    FoldJoin(before, [THOUSAND], s);
  }

  /** A head and a group are read as the number they make up. */
  lemma ReadsHead(head: seq<Number>, group: seq<Number>, thousands: nat, g: nat)
    requires thousands < 1000 && IsHead(head, thousands) && ReadAs(group, g)
    ensures Fold(head + group).Some?
    ensures Fold(head + group).value.total == 1000 * thousands && Fold(head + group).value.group == g
  {
    assert Fold([]) == Some(START);
    if thousands == 0 {
      assert head + group == [] + group;
    } else if head == [THOUSAND] && thousands == 1 {
      ReadsThousand([], START, group, g);
      assert [] + [THOUSAND] + group == head + group;
    } else {
      var t := Group(thousands);
      ReadsGroup(thousands);
      assert [] + t == t;
      assert Fold(t).Some? && Fold(t).value.total == 0 && Fold(t).value.group == thousands;
      ReadsThousand(t, Fold(t).value, group, g);
    }
  }

  lemma LoneWord(thousands: nat, g: nat)
    requires thousands < 1000 && g < 1000 && |Canonical(thousands) + Group(g)| <= 1 && 1 <= 1000 * thousands + g
    ensures Canonical(thousands) + Group(g) == [Whole(1000 * thousands + g)]
  {
    if thousands > 0 {
      GroupNotEmpty(thousands);
    }
    if g > 0 {
      GroupNotEmpty(g);
    }
    assert Group(0) == [];
  }

  /** Every number from 1 to 999999 in words reads back as itself. */
  lemma ReadsWhatIsWritten(n: nat)
    requires 1 <= n <= 999999
    ensures Written(n) != [] && Read(Written(n)) == Some(Whole(n))
  {
    ReadsCanonical(n / 1000, n % 1000);
  }

  lemma ReadsCanonical(t: nat, g: nat)
    requires t < 1000 && g < 1000 && 1 <= 1000 * t + g
    ensures var words := Canonical(t) + Group(g); words != [] && Read(words) == Some(Whole(1000 * t + g))
  {
    ReadsGroup(g);
    ReadsHead(Canonical(t), Group(g), t, g);
    if |Canonical(t) + Group(g)| <= 1 {
      LoneWord(t, g);
    }
  }

  lemma GroupNotEmpty(n: nat)
    requires 0 < n < 1000
    ensures Group(n) != [] && (|Group(n)| == 1 ==> Group(n) == [Whole(n)])
  {
  }

  /**
   * A phrase of several number words is replaced by a number exactly when it writes it; every
   * other phrase is left alone. A single word is always replaced by its value.
   */
  lemma ReadsExactlyTheWritten(words: seq<Number>, n: nat)
    requires AreCardinals(words) && |words| >= 2
    ensures Read(words) == Some(Whole(n)) <==> 1 <= n <= 999999 && Writes(words, n)
  {
    if Read(words) == Some(Whole(n)) {
      OnlyTheWrittenIsRead(words, n);
    }
    if 1 <= n <= 999999 && Writes(words, n) {
      TheWrittenIsRead(words, n);
    }
  }

  lemma OnlyTheWrittenIsRead(words: seq<Number>, n: nat)
    requires AreCardinals(words) && |words| >= 2 && Read(words) == Some(Whole(n))
    ensures 1 <= n <= 999999 && Writes(words, n)
  {
    var head, thousands := FoldHolds(words);
    HeldIsWritten(words, head, thousands, Fold(words).value.group);
  }

  lemma TheWrittenIsRead(words: seq<Number>, n: nat)
    requires 1 <= n <= 999999 && Writes(words, n)
    ensures words != [] && Read(words) == Some(Whole(n))
  {
    if words == Written(n) {
      ReadsWhatIsWritten(n);
    } else {
      ReadsWithOne(n % 1000);
    }
  }

  lemma ReadsWithOne(g: nat)
    requires g < 1000
    ensures var words := [Whole(1), THOUSAND] + Group(g); Read(words) == Some(Whole(1000 + g))
  {
    assert Group(1) == [Whole(1)];
    assert Group(1) + [THOUSAND] == [Whole(1), THOUSAND];
    ReadsGroup(g);
    ReadsHead([Whole(1), THOUSAND], Group(g), 1, g);
  }

  lemma ThousandsSplit(t: nat, g: nat)
    requires g < 1000
    ensures (1000 * t + g) / 1000 == t && (1000 * t + g) % 1000 == g
  {
  }

  lemma HeldIsWritten(words: seq<Number>, head: seq<Number>, thousands: nat, group: nat)
    requires thousands < 1000 && group < 1000 && IsHead(head, thousands) && words == head + Group(group) && words != []
    ensures var n := 1000 * thousands + group; 1 <= n <= 999999 && Writes(words, n)
  {
    ThousandsSplit(thousands, group);
    assert Group(0) == [];
    if head != Canonical(thousands) {
      assert Group(1) == [Whole(1)];
      assert head == [Whole(1), THOUSAND];
    }
  }
}
