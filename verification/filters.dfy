/**
  Antecedent filters: morphological agreement, the binding principles, lemma
  identity and expletive detection.
 */
module Filters {
  import opened Common
  import opened Ids
  import opened Documents
  import opened Registry

  // ---------------------------------------------------------------------------
  // Morphological agreement

  datatype Feature = Gender | Person | Number

  function FeatureOf(t: Token, f: Feature): Option<string> {
    match f
    case Gender => t.gender
    case Person => t.person
    case Number => t.number
  }

  /**
    `feature_agreement`: only when both tokens carry the feature and the values
    differ is there disagreement (underspecification).
   */
  predicate FeatureAgreement(ante: Token, ana: Token, f: Feature) {
    if FeatureOf(ante, f).Some? && FeatureOf(ana, f).Some? then
      FeatureOf(ante, f).value == FeatureOf(ana, f).value
    else
      true
  }

  /** `morph_agreement`: gender, person and number, in that order, for every part of speech. */
  function MorphAgreement(ante: Token, ana: Token): (r: bool)
    ensures !r <==> exists f: Feature ::
      FeatureOf(ante, f).Some? && FeatureOf(ana, f).Some? && FeatureOf(ante, f).value != FeatureOf(ana, f).value
  {
    if !FeatureAgreement(ante, ana, Gender) then false
    else if !FeatureAgreement(ante, ana, Person) then false
    else if !FeatureAgreement(ante, ana, Number) then false
    else true
  }

  /** Agreement does not depend on which token is the antecedent. */
  lemma MorphAgreementSymmetric(a: Token, b: Token)
    ensures MorphAgreement(a, b) == MorphAgreement(b, a)
  {
  }

  /** A token agrees with itself, and a token without features agrees with everything. */
  lemma MorphAgreementTrivial(a: Token, b: Token)
    ensures MorphAgreement(a, a)
    ensures a.gender.None? && a.person.None? && a.number.None? ==> MorphAgreement(a, b)
  {
  }

  /**
    Although the documentation says possessives are checked on person and
    gender only, number is checked for them as well: a possessive anaphora that
    differs from its candidate in number alone is rejected.
   */
  lemma PossessiveChecksNumber()
    ensures !MorphAgreement(
      Token("Kinder", "Kind", "NN", "SB", 0, Some("neut"), Some("3"), Some("pl")),
      Token("sein", "sein", "PPOSAT", "NK", 0, Some("neut"), Some("3"), Some("sg")))
  {
  }

  // ---------------------------------------------------------------------------
  // Clause boundaries (`anaphora_boundaries`)

  /** Punctuation and conjunction relations delimit a clause. */
  predicate IsClauseBreak(t: Token) {
    t.deprel == "PUNC" || t.deprel == "CD"
  }

  predicate BreakAt(doc: Document, sent: nat, p: nat) {
    IsClauseBreak(At(doc, Tid(sent, p)))
  }

  /**
    The left clause boundary of word `pos`: scanning from `pos` down to 1, the
    first position that is a clause break, or 1 if there is none.
   */
  function LeftBoundary(doc: Document, sent: nat, pos: nat): (b: nat)
    ensures 1 <= b
    ensures pos >= 1 ==> b <= pos
    ensures (b <= pos && BreakAt(doc, sent, b)) || (b == 1 && forall p :: 1 <= p <= pos ==> !BreakAt(doc, sent, p))
    ensures forall p :: b < p <= pos ==> !BreakAt(doc, sent, p)
    decreases pos
  {
    if pos == 0 then 1
    else if BreakAt(doc, sent, pos) then pos
    else LeftBoundary(doc, sent, pos - 1)
  }

  /** Scanning positions `p`, `p + 1`, ..., `len - 1` for the first clause break; `len` if there is none. */
  function RightScan(doc: Document, sent: nat, p: nat, len: nat): (e: nat)
    ensures p <= len ==> p <= e <= len
    ensures p > len ==> e == len
    ensures e < len ==> BreakAt(doc, sent, e)
    ensures forall q :: p <= q < e ==> !BreakAt(doc, sent, q)
    decreases if p < len then len - p else 0
  {
    if p >= len then len
    else if BreakAt(doc, sent, p) then p
    else RightScan(doc, sent, p + 1, len)
  }

  /**
    The right clause boundary of word `pos`: the first clause break at or after
    `pos` and before the last word of the sentence, or the sentence length.
   */
  function RightBoundary(doc: Document, sent: nat, pos: nat): (e: nat)
    ensures pos <= SentLength(doc, sent) ==> pos <= e <= SentLength(doc, sent)
    ensures e < SentLength(doc, sent) ==> BreakAt(doc, sent, e)
    ensures forall q :: pos <= q < e ==> !BreakAt(doc, sent, q)
  {
    RightScan(doc, sent, pos, SentLength(doc, sent))
  }

  /** For a word of the document the clause brackets it: `1 <= begin <= pos <= end <= length`. */
  lemma ClauseBrackets(doc: Document, ana: TokenId)
    requires ValidId(doc, ana)
    ensures 1 <= LeftBoundary(doc, ana.sent, ana.word) <= ana.word
    ensures ana.word <= RightBoundary(doc, ana.sent, ana.word) <= SentLength(doc, ana.sent)
  {
  }

  /** Word `t` lies in sentence `sent` within the half-open window `[begin, end)`. */
  predicate InClause(t: TokenId, sent: nat, begin: nat, end: nat) {
    t.sent == sent && begin <= t.word < end
  }

  /** Some id of `chain` lies in sentence `sent` within `[begin, end)`. */
  function AnyInClause(chain: seq<TokenId>, sent: nat, begin: nat, end: nat): (r: bool)
    ensures r <==> exists x :: x in chain && InClause(x, sent, begin, end)
  {
    if |chain| == 0 then false
    else if InClause(chain[0], sent, begin, end) then true
    else
      assert forall x :: x in chain ==> x == chain[0] || x in chain[1..];
      AnyInClause(chain[1..], sent, begin, end)
  }

  /** Some id of `chain` lies in sentence `sent`. */
  function AnyInSentence(chain: seq<TokenId>, sent: nat): (r: bool)
    ensures r <==> exists x :: x in chain && x.sent == sent
  {
    if |chain| == 0 then false
    else if chain[0].sent == sent then true
    else
      assert forall x :: x in chain ==> x == chain[0] || x in chain[1..];
      AnyInSentence(chain[1..], sent)
  }

  /**
    `is_bound`: may `ante` be the antecedent of `ana` under the binding
    principles? The binding domain is the anaphora's clause `[begin, end)`; the
    mentions already chained to `ante` are read from `entities` under the key
    `ante` (an absent key reads as no mentions).
   */
  function IsBound(doc: Document, entities: map<TokenId, seq<TokenId>>, ante: TokenId, ana: TokenId): (r: bool)
    // principle 1: a reflexive needs its antecedent inside its own clause
    ensures At(doc, ana).pos == "PRF"
      && !InClause(ante, ana.sent, LeftBoundary(doc, ana.sent, ana.word), RightBoundary(doc, ana.sent, ana.word))
      ==> !r
    // principle 2: a personal pronoun must not be bound by a mention inside its clause
    ensures At(doc, ana).pos == "PPER" && At(doc, ante).pos != "PRF" && At(doc, ante).pos != "PPOSAT"
      && (exists x :: x in ChainOf(entities, ante)
            && InClause(x, ana.sent, LeftBoundary(doc, ana.sent, ana.word), RightBoundary(doc, ana.sent, ana.word)))
      ==> !r
    // principle 3: a noun must be free in its sentence
    ensures (At(doc, ana).pos == "NN" || At(doc, ana).pos == "NE")
      && (exists x :: x in ChainOf(entities, ante) && x.sent == ana.sent)
      ==> !r
    // nothing else rejects
    ensures !r ==>
      (At(doc, ana).pos == "PRF"
        && !InClause(ante, ana.sent, LeftBoundary(doc, ana.sent, ana.word), RightBoundary(doc, ana.sent, ana.word)))
      || (At(doc, ana).pos == "PPER" && At(doc, ante).pos != "PRF" && At(doc, ante).pos != "PPOSAT"
        && exists x :: x in ChainOf(entities, ante)
             && InClause(x, ana.sent, LeftBoundary(doc, ana.sent, ana.word), RightBoundary(doc, ana.sent, ana.word)))
      || ((At(doc, ana).pos == "NN" || At(doc, ana).pos == "NE")
        && exists x :: x in ChainOf(entities, ante) && x.sent == ana.sent)
  {
    var anaphora := At(doc, ana);
    var antecedent := At(doc, ante);
    var begin := LeftBoundary(doc, ana.sent, ana.word);
    var end := RightBoundary(doc, ana.sent, ana.word);
    if anaphora.pos == "PRF" && (ana.sent != ante.sent || !(begin <= ante.word < end)) then false
    else if anaphora.pos == "PPER" && antecedent.pos !in {"PRF", "PPOSAT"}
      && AnyInClause(ChainOf(entities, ante), ana.sent, begin, end) then false
    else if anaphora.pos in {"NN", "NE"} && AnyInSentence(ChainOf(entities, ante), ana.sent) then false
    else true
  }

  // ---------------------------------------------------------------------------
  // Lemma identity and expletives

  /** `is_coreferent`: exact, case-sensitive equality of the lemmas. */
  predicate IsCoreferent(doc: Document, ante: TokenId, ana: TokenId) {
    At(doc, ante).baseForm == At(doc, ana).baseForm
  }

  /** Lemma identity is reflexive and symmetric. */
  lemma CoreferentReflexiveSymmetric(doc: Document, a: TokenId, b: TokenId)
    ensures IsCoreferent(doc, a, a)
    ensures IsCoreferent(doc, a, b) == IsCoreferent(doc, b, a)
  {
  }

  const ExpletiveVerbs: set<string> := {"sein", "regnen", "gelingen", "bestehen", "geben"}

  /**
    The lemmas of the words governing `t`, nearest first (`traverse_dependencies_up`).
    The walk stays inside the sentence of `t`: there are no more governing lemmas
    than words in it, and each is the lemma of one of its words.
   */
  function GoverningLemmas(doc: Document, t: TokenId): (r: seq<string>)
    ensures |r| <= SentLength(doc, t.sent)
    ensures forall i :: 0 <= i < |r| ==>
      exists w :: 1 <= w <= SentLength(doc, t.sent) && r[i] == At(doc, Tid(t.sent, w)).baseForm
  {
    if 1 <= t.sent <= |doc| then
      var s := doc[t.sent - 1];
      var p := UpPath(s, t.word, |s|);
      assert forall i :: 0 <= i < |p| ==> ValidId(doc, Tid(t.sent, p[i]));
      seq(|p|, i requires 0 <= i < |p| => s[p[i] - 1].baseForm)
    else []
  }

  /**
    `traverse_dependencies_up` one step at a time: in a well-formed tree a word
    attached to the root has no governing lemmas, and any other word has its
    head's lemma first, followed by the head's own governing lemmas.
   */
  lemma {:induction false} GoverningLemmasStep(doc: Document, t: TokenId)
    requires ValidId(doc, t) && IsTree(doc[t.sent - 1])
    ensures At(doc, t).head == 0 ==> GoverningLemmas(doc, t) == []
    ensures At(doc, t).head != 0 ==>
      var h := Tid(t.sent, At(doc, t).head);
      ValidId(doc, h) && GoverningLemmas(doc, t) == [At(doc, h).baseForm] + GoverningLemmas(doc, h)
  {
    var s := doc[t.sent - 1];
    var head := At(doc, t).head;
    assert HeadOf(s, t.word) == head;
    if head != 0 {
      var h := Tid(t.sent, head);
      assert Reaches(s, t.word, |s|);
      assert Reaches(s, head, |s| - 1);
      UpPathStable(s, head, |s| - 1, |s|);
      var p := UpPath(s, t.word, |s|);
      var q := UpPath(s, head, |s|);
      assert p == [head] + q;
      var r := GoverningLemmas(doc, t);
      var g := GoverningLemmas(doc, h);
      assert |r| == 1 + |g|;
      forall i | 0 <= i < |r| ensures r[i] == ([At(doc, h).baseForm] + g)[i] {
        if i > 0 {
          assert p[i] == q[i - 1];
        }
      }
    }
  }

  /** Some lemma of the list is an expletive verb (the scan stops at the first one). */
  function AnyExpletiveVerb(lemmas: seq<string>): (r: bool)
    ensures r <==> exists i :: 0 <= i < |lemmas| && lemmas[i] in ExpletiveVerbs
  {
    if |lemmas| == 0 then false
    else if lemmas[0] in ExpletiveVerbs then true
    else
      assert forall i :: 1 <= i < |lemmas| ==> lemmas[i] == lemmas[1..][i - 1];
      AnyExpletiveVerb(lemmas[1..])
  }

  /** `is_expletive`: an "es"/"Es" governed, at any distance, by an expletive verb. */
  function IsExpletive(doc: Document, t: TokenId): (r: bool)
    ensures r ==> At(doc, t).form == "es" || At(doc, t).form == "Es"
    ensures (At(doc, t).form == "es" || At(doc, t).form == "Es") ==>
      (r <==> exists i :: 0 <= i < |GoverningLemmas(doc, t)| && GoverningLemmas(doc, t)[i] in ExpletiveVerbs)
  {
    if At(doc, t).form in {"es", "Es"} then AnyExpletiveVerb(GoverningLemmas(doc, t)) else false
  }
}
