/**
  Token node ids. A token is named by its sentence index and its word position,
  both counted from 1; its textual id is `s<sentence>_t<word>`. Document order is
  the lexicographic order on the (sentence, word) pair, which is what sorting the
  textual ids with a natural-sort key yields.
 */
module Ids {
  import opened Common

  datatype TokenId = Tid(sent: nat, word: nat)

  /** `a` occurs strictly earlier in the document than `b`. */
  predicate Before(a: TokenId, b: TokenId) {
    a.sent < b.sent || (a.sent == b.sent && a.word < b.word)
  }

  /** `a` occurs no later than `b`. */
  predicate NotAfter(a: TokenId, b: TokenId) {
    a == b || Before(a, b)
  }

  predicate Sorted(s: seq<TokenId>) {
    forall i, j :: 0 <= i < j < |s| ==> NotAfter(s[i], s[j])
  }

  predicate StrictlySorted(s: seq<TokenId>) {
    forall i, j :: 0 <= i < j < |s| ==> Before(s[i], s[j])
  }

  lemma StrictlySortedIsSorted(s: seq<TokenId>)
    requires StrictlySorted(s)
    ensures Sorted(s) && NoDup(s)
  {
  }

  // ---------------------------------------------------------------------------
  // mintok / maxtok

  /** The id of the token that occurs first in the text (Python's `min` with a natural-sort key). */
  function MinTok(ids: seq<TokenId>): (m: TokenId)
    requires |ids| > 0
    ensures m in ids
    ensures forall x :: x in ids ==> NotAfter(m, x)
  {
    if |ids| == 1 then ids[0]
    else
      var rest := MinTok(ids[1..]);
      assert forall x :: x in ids ==> x == ids[0] || x in ids[1..];
      if NotAfter(rest, ids[0]) then rest else ids[0]
  }

  /** The id of the token that occurs last in the text (Python's `max` with a natural-sort key). */
  function MaxTok(ids: seq<TokenId>): (m: TokenId)
    requires |ids| > 0
    ensures m in ids
    ensures forall x :: x in ids ==> NotAfter(x, m)
  {
    if |ids| == 1 then ids[0]
    else
      var rest := MaxTok(ids[1..]);
      assert forall x :: x in ids ==> x == ids[0] || x in ids[1..];
      if NotAfter(ids[0], rest) then rest else ids[0]
  }

  /** The extreme tokens do not depend on how the ids are listed. */
  lemma {:induction false} MinMaxTokUnique(ids: seq<TokenId>, m: TokenId, n: TokenId)
    requires |ids| > 0
    requires m in ids && forall x :: x in ids ==> NotAfter(m, x)
    requires n in ids && forall x :: x in ids ==> NotAfter(x, n)
    ensures MinTok(ids) == m && MaxTok(ids) == n
  {
    var a := MinTok(ids);
    assert NotAfter(a, m) && NotAfter(m, a);
    var b := MaxTok(ids);
    assert NotAfter(b, n) && NotAfter(n, b);
  }

  // ---------------------------------------------------------------------------
  // Sorting by document order

  /** Puts `x` into its place in a sorted sequence. */
  function Insert(x: TokenId, s: seq<TokenId>): (r: seq<TokenId>)
    requires Sorted(s)
    ensures Sorted(r)
    ensures multiset(r) == multiset(s) + multiset{x}
  {
    if |s| == 0 then [x]
    else if NotAfter(x, s[0]) then
      [x] + s
    else
      var rest := Insert(x, s[1..]);
      InsertMembers(x, s[1..], rest);
      SortedCons(s[0], rest);
      assert s == [s[0]] + s[1..];
      [s[0]] + rest
  }

  /** An element no later than all of a sorted sequence may go in front of it. */
  lemma SortedCons(a: TokenId, s: seq<TokenId>)
    requires Sorted(s)
    requires forall y :: y in s ==> NotAfter(a, y)
    ensures Sorted([a] + s)
  {
    var t := [a] + s;
    forall i, j | 0 <= i < j < |t| ensures NotAfter(t[i], t[j]) {
      if i == 0 {
        assert t[j] == s[j - 1];
      } else {
        assert t[i] == s[i - 1] && t[j] == s[j - 1];
      }
    }
  }

  /** The elements after an insertion are the inserted one and the old ones. */
  lemma InsertMembers(x: TokenId, s: seq<TokenId>, r: seq<TokenId>)
    requires multiset(r) == multiset(s) + multiset{x}
    ensures forall y :: y in r ==> y == x || y in s
  {
    forall y | y in r ensures y == x || y in s {
      assert y in multiset(r);
    }
  }

  /** `sorted(ids, key=natural_sort_key)`: the same ids, rearranged into document order. */
  function Sort(s: seq<TokenId>): (r: seq<TokenId>)
    ensures Sorted(r)
    ensures multiset(r) == multiset(s)
  {
    if |s| == 0 then []
    else
      assert s == [s[0]] + s[1..];
      Insert(s[0], Sort(s[1..]))
  }

  /** A sorted arrangement of a duplicate-free sequence is strictly increasing. */
  lemma {:induction false} SortedNoDupIsStrict(s: seq<TokenId>)
    requires Sorted(s) && NoDup(s)
    ensures StrictlySorted(s)
  {
  }

  /** Rearranging keeps a sequence free of duplicates. */
  lemma {:induction false} NoDupPermutation(s: seq<TokenId>, t: seq<TokenId>)
    requires multiset(s) == multiset(t) && NoDup(s)
    ensures NoDup(t)
  {
    forall i, j | 0 <= i < j < |t| ensures t[i] != t[j] {
      if t[i] == t[j] {
        var x := t[i];
        assert t == t[..j] + t[j..];
        assert x in t[..j] && x in t[j..];
        assert multiset(t)[x] >= 2 by {
          assert multiset(t) == multiset(t[..j]) + multiset(t[j..]);
        }
        NoDupCount(s, x);
        assert false;
      }
    }
  }

  /** In a duplicate-free sequence every value occurs at most once. */
  lemma {:induction false} NoDupCount(s: seq<TokenId>, x: TokenId)
    requires NoDup(s)
    ensures multiset(s)[x] <= 1
  {
    if |s| > 0 {
      assert s == [s[0]] + s[1..];
      assert NoDup(s[1..]);
      NoDupCount(s[1..], x);
      if x == s[0] {
        assert x !in s[1..];
      }
    }
  }

  // ---------------------------------------------------------------------------
  // Textual ids: tokentuple2id

  predicate IsDigit(c: char) {
    '0' <= c <= '9'
  }

  predicate AllDigits(s: string) {
    forall i :: 0 <= i < |s| ==> IsDigit(s[i])
  }

  function DigitChar(d: nat): (c: char)
    requires d < 10
    ensures IsDigit(c)
  {
    "0123456789"[d]
  }

  function DigitValue(c: char): nat
    requires IsDigit(c)
  {
    c as int - '0' as int
  }

  /** The decimal numeral of `n`, without leading zeros (Python's `'{}'.format(n)`). */
  function Decimal(n: nat): (r: string)
    ensures |r| >= 1 && AllDigits(r)
    ensures n >= 10 ==> |r| >= 2
    decreases n
  {
    if n < 10 then [DigitChar(n)] else Decimal(n / 10) + [DigitChar(n % 10)]
  }

  /** The number a decimal numeral denotes. */
  function DecimalValue(s: string): nat
    requires AllDigits(s)
  {
    if |s| == 0 then 0
    else DecimalValue(s[..|s| - 1]) * 10 + DigitValue(s[|s| - 1])
  }

  /** Reading back a written number gives the number. */
  lemma {:induction false} DecimalRoundTrip(n: nat)
    ensures DecimalValue(Decimal(n)) == n
    decreases n
  {
    if n >= 10 {
      DecimalRoundTrip(n / 10);
      var d := Decimal(n);
      assert d[..|d| - 1] == Decimal(n / 10);
    }
  }

  /** `tokentuple2id`: the textual id `s<sent>_t<word>`. */
  function TokenIdString(t: TokenId): string {
    "s" + Decimal(t.sent) + "_t" + Decimal(t.word)
  }

  /** Two ids of the shape `s<digits>_t<digits>` agree only if their numerals do. */
  lemma SplitIdString(a: string, b: string, c: string, d: string)
    requires AllDigits(a) && AllDigits(c)
    requires "s" + a + "_t" + b == "s" + c + "_t" + d
    ensures a == c && b == d
  {
    var x := "s" + a + "_t" + b;
    var y := "s" + c + "_t" + d;
    if |a| < |c| {
      IdStringUnderscore(a, b);
      assert false;
    } else if |c| < |a| {
      IdStringUnderscore(c, d);
      assert false;
    } else {
      assert a == x[1..1 + |a|];
      assert c == y[1..1 + |c|];
      assert b == x[3 + |a|..];
      assert d == y[3 + |c|..];
    }
  }

  lemma IdStringUnderscore(a: string, b: string)
    ensures ("s" + a + "_t" + b)[1 + |a|] == '_'
  {
  }

  /** Distinct tokens get distinct textual ids. */
  lemma TokenIdStringInjective(t: TokenId, u: TokenId)
    requires TokenIdString(t) == TokenIdString(u)
    ensures t == u
  {
    SplitIdString(Decimal(t.sent), Decimal(t.word), Decimal(u.sent), Decimal(u.word));
    DecimalRoundTrip(t.sent);
    DecimalRoundTrip(u.sent);
    DecimalRoundTrip(t.word);
    DecimalRoundTrip(u.word);
  }

  // ---------------------------------------------------------------------------
  // Comparing textual ids as strings

  /** Python's string order: code point by code point, a proper prefix first. */
  predicate StrLess(a: string, b: string) {
    if |a| == 0 then |b| > 0
    else if |b| == 0 then false
    else if a[0] != b[0] then a[0] < b[0]
    else StrLess(a[1..], b[1..])
  }

  lemma {:induction false} StrLessIrreflexive(a: string)
    ensures !StrLess(a, a)
  {
    if |a| > 0 {
      StrLessIrreflexive(a[1..]);
    }
  }

  lemma {:induction false} StrLessTransitive(a: string, b: string, c: string)
    requires StrLess(a, b) && StrLess(b, c)
    ensures StrLess(a, c)
  {
    if |a| > 0 && |b| > 0 && |c| > 0 && a[0] == b[0] && b[0] == c[0] {
      StrLessTransitive(a[1..], b[1..], c[1..]);
    }
  }

  /** Any two distinct strings are ordered one way or the other. */
  lemma {:induction false} StrLessTotal(a: string, b: string)
    ensures a == b || StrLess(a, b) || StrLess(b, a)
  {
    if |a| > 0 && |b| > 0 && a[0] == b[0] {
      StrLessTotal(a[1..], b[1..]);
      if a[1..] == b[1..] {
        assert a == [a[0]] + a[1..] && b == [b[0]] + b[1..];
      }
    }
  }

  /** `a` is not above `b` and `b` is not above `c`, so `a` is not above `c`. */
  lemma StrNotLessTransitive(a: string, b: string, c: string)
    requires !StrLess(a, b) && !StrLess(b, c)
    ensures !StrLess(a, c)
  {
    if StrLess(a, c) {
      StrLessTotal(a, b);
      StrLessTotal(b, c);
      if a != b && b != c {
        StrLessTransitive(b, a, c);
        StrLessTransitive(c, b, a);
        StrLessIrreflexive(c);
        assert false;
      }
    }
  }

  /**
    `max(ids)` on the textual ids, as `_resolve_pronominal_anaphora` does for
    relative and demonstrative pronouns: the greatest id under string order.
   */
  function MaxByIdString(ids: seq<TokenId>): (m: TokenId)
    requires |ids| > 0
    ensures m in ids
    ensures forall x :: x in ids ==> !StrLess(TokenIdString(m), TokenIdString(x))
  {
    if |ids| == 1 then
      StrLessIrreflexive(TokenIdString(ids[0]));
      ids[0]
    else
      var rest := MaxByIdString(ids[1..]);
      var a, b := TokenIdString(ids[0]), TokenIdString(rest);
      assert forall x :: x in ids ==> x == ids[0] || x in ids[1..];
      if StrLess(a, b) then
        assert !StrLess(b, a) by {
          if StrLess(b, a) {
            StrLessTransitive(a, b, a);
            StrLessIrreflexive(a);
          }
        }
        rest
      else
        assert forall x :: x in ids[1..] ==> !StrLess(a, TokenIdString(x)) by {
          forall x | x in ids[1..] ensures !StrLess(a, TokenIdString(x)) {
            StrNotLessTransitive(a, b, TokenIdString(x));
          }
        }
        StrLessIrreflexive(a);
        ids[0]
  }

  lemma DigitCharMonotone(n: nat, m: nat)
    requires n < 10 && m < 10
    ensures DigitChar(n) < DigitChar(m) <==> n < m
    ensures DigitChar(n) == DigitChar(m) <==> n == m
  {
    assert forall k :: 0 <= k < 10 ==> "0123456789"[k] as int == '0' as int + k;
  }

  /** Comparing strings with a common first character compares the rest. */
  lemma StrLessCommonHead(c: char, a: string, b: string)
    ensures StrLess([c] + a, [c] + b) == StrLess(a, b)
  {
    assert ([c] + a)[1..] == a && ([c] + b)[1..] == b;
  }

  /** On ids whose numbers all have one digit, string order is document order. */
  lemma SingleDigitOrder(a: TokenId, b: TokenId)
    requires a.sent < 10 && a.word < 10 && b.sent < 10 && b.word < 10
    ensures StrLess(TokenIdString(a), TokenIdString(b)) <==> Before(a, b)
  {
    var sa, wa, sb, wb := DigitChar(a.sent), DigitChar(a.word), DigitChar(b.sent), DigitChar(b.word);
    assert TokenIdString(a) == ['s'] + ([sa] + (['_'] + (['t'] + [wa])));
    assert TokenIdString(b) == ['s'] + ([sb] + (['_'] + (['t'] + [wb])));
    DigitCharMonotone(a.sent, b.sent);
    DigitCharMonotone(a.word, b.word);
    StrLessCommonHead('s', [sa] + (['_'] + (['t'] + [wa])), [sb] + (['_'] + (['t'] + [wb])));
    if sa == sb {
      StrLessCommonHead(sa, ['_'] + (['t'] + [wa]), ['_'] + (['t'] + [wb]));
      StrLessCommonHead('_', ['t'] + [wa], ['t'] + [wb]);
      StrLessCommonHead('t', [wa], [wb]);
    }
  }

  /**
    While every sentence and word number has a single digit, the string maximum
    is the latest token; the two part only from position 10 on.
   */
  lemma MaxByIdStringSingleDigits(ids: seq<TokenId>)
    requires |ids| > 0
    requires forall x :: x in ids ==> x.sent < 10 && x.word < 10
    ensures MaxByIdString(ids) == MaxTok(ids)
  {
    var m := MaxByIdString(ids);
    forall x | x in ids ensures NotAfter(x, m) {
      SingleDigitOrder(m, x);
    }
    MinMaxTokUnique(ids, MinTok(ids), m);
  }

  /**
    String order and document order disagree from word position 10 on:
    `"s1_t10" < "s1_t9"`, so the string maximum of the two is the earlier token,
    whereas the latest one is `s1_t10`.
   */
  lemma MaxByIdStringPicksEarlier()
    ensures MaxByIdString([Tid(1, 9), Tid(1, 10)]) == Tid(1, 9)
    ensures MaxTok([Tid(1, 9), Tid(1, 10)]) == Tid(1, 10)
    ensures Before(Tid(1, 9), Tid(1, 10))
  {
    assert Decimal(1) == "1";
    assert Decimal(9) == "9";
    assert Decimal(10) == "10";
    assert TokenIdString(Tid(1, 9)) == "s1_t9";
    assert TokenIdString(Tid(1, 10)) == "s1_t10";
    assert StrLess("s1_t10", "s1_t9");
  }
}
