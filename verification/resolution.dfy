/**
  The resolution controller: one pass over the document that sends nouns to
  nominal resolution and pronouns to pronominal resolution, each step a
  transition of the registry state.
 */
module Resolution {
  import opened Common
  import opened Ids
  import opened Documents
  import opened Registry
  import opened Filters
  import opened Preferences
  import opened Pipeline

  const NounTags: set<string> := {"NN", "NE"}
  const PronounTags: set<string> := {"PPER", "PRELS", "PRF", "PPOSAT", "PDS"}

  /** Relative and demonstrative pronouns: the most recent candidate wins. */
  const RecencyTags: set<string> := {"PRELS", "PDS"}

  /** Personal, reflexive and possessive pronouns: the best-scored candidate wins. */
  const ScoredTags: set<string> := {"PPER", "PRF", "PPOSAT"}

  /** The weights used when the caller gives none. */
  const DefaultWeights: seq<int> := [8, 2, 8, 3, 2, 7, 0]

  // ---------------------------------------------------------------------------
  // Dispatch

  datatype Treatment = Nominal | Pronominal | Skipped

  /**
    Which resolution a token gets: nouns and proper nouns other than name parts
    are nominal; the five pronoun tags are pronominal unless the token is an
    expletive "es"; everything else is skipped.
   */
  function Classify(doc: Document, t: TokenId): (c: Treatment)
    ensures c == Nominal <==> At(doc, t).pos in NounTags && At(doc, t).deprel != "PNC"
    ensures c == Pronominal ==> At(doc, t).pos in PronounTags && !IsExpletive(doc, t)
    ensures c == Skipped <==> (!(At(doc, t).pos in NounTags && At(doc, t).deprel != "PNC")
                              && (At(doc, t).pos !in PronounTags || IsExpletive(doc, t)))
  {
    var tok := At(doc, t);
    if tok.pos in NounTags && tok.deprel != "PNC" then Nominal
    else if tok.pos in PronounTags && !IsExpletive(doc, t) then Pronominal
    else Skipped
  }

  /**
    The failure the source runs into when it hands the resolver itself, instead
    of its document, to `is_expletive` and `is_coreferent`: the resolver has
    neither `get_token` nor `node`, so the lookup raises `AttributeError`.
   */
  datatype StepError = MissingDocumentAttribute

  /**
    The dispatch as written: nouns are told apart as before, but every other
    token with a pronoun tag reaches `is_expletive(self, token_id)` and raises.
   */
  function ClassifyAsWritten(doc: Document, t: TokenId): (r: Result<Treatment, StepError>)
    ensures r.Failure? <==> !(At(doc, t).pos in NounTags && At(doc, t).deprel != "PNC") && At(doc, t).pos in PronounTags
    ensures r.Success? ==> r.value == Classify(doc, t) && r.value != Pronominal
  {
    var tok := At(doc, t);
    if tok.pos in NounTags && tok.deprel != "PNC" then Success(Nominal)
    else if tok.pos in PronounTags then Failure(MissingDocumentAttribute)
    else Success(Skipped)
  }

  /** "Er schläft ." : the personal pronoun is meant for pronominal resolution, but the dispatch as written raises. */
  lemma AsWrittenPronounRaises()
    ensures var doc := [[
        Token("Er", "er", "PPER", "SB", 2, Some("masc"), Some("3"), Some("sg")),
        Token("schläft", "schlafen", "VVFIN", "ROOT", 0, None, None, None),
        Token(".", ".", "$.", "PUNC", 2, None, None, None) ]];
      ClassifyAsWritten(doc, Tid(1, 1)).Failure? && Classify(doc, Tid(1, 1)) == Pronominal
  {
  }

  /**
    "es gibt keine Milch ." : the "es" is governed by a form of "geben" and is
    skipped, so resolving it leaves the registry as it was.
   */
  lemma ExpletiveScenario()
    ensures var doc := [[
        Token("es", "es", "PPER", "SB", 2, Some("neut"), Some("3"), Some("sg")),
        Token("gibt", "geben", "VVFIN", "ROOT", 0, None, None, None),
        Token("keine", "kein", "PIAT", "NK", 4, None, None, None),
        Token("Milch", "Milch", "NN", "OA", 2, Some("fem"), Some("3"), Some("sg")),
        Token(".", ".", "$.", "PUNC", 2, None, None, None) ]];
      IsExpletive(doc, Tid(1, 1)) && Classify(doc, Tid(1, 1)) == Skipped
  {
  }

  // ---------------------------------------------------------------------------
  // Nominal resolution

  /** `cands[i]` shares the anaphora's lemma and no later candidate does. */
  predicate LatestMatch(doc: Document, cands: seq<TokenId>, ana: TokenId, i: nat) {
    && i < |cands|
    && IsCoreferent(doc, cands[i], ana)
    && forall j :: i < j < |cands| ==> !IsCoreferent(doc, cands[j], ana)
  }

  /** Index of the last candidate whose lemma equals the anaphora's, scanning from the end. */
  function LastCoreferent(doc: Document, cands: seq<TokenId>, ana: TokenId): (r: Option<nat>)
    ensures r.None? <==> forall i :: 0 <= i < |cands| ==> !IsCoreferent(doc, cands[i], ana)
    ensures forall i: nat :: LatestMatch(doc, cands, ana, i) <==> r == Some(i)
  {
    if |cands| == 0 then None
    else if IsCoreferent(doc, cands[|cands| - 1], ana) then Some(|cands| - 1)
    else LastCoreferent(doc, cands[..|cands| - 1], ana)
  }

  /**
    `_resolve_nominal_anaphora`: the anaphora joins the entity of the latest
    candidate with the same lemma; without one it starts an entity of its own,
    unless `mentions` already knows it.
   */
  function ResolveNominal(doc: Document, st: State, ana: TokenId): (r: State)
    requires Inv(st)
    ensures r.anaToAnte == st.anaToAnte
    ensures (forall c :: c in Candidates(st) ==> !IsCoreferent(doc, c, ana)) ==>
      r == (if ana in st.mentions then st else NewEntity(st, ana))
  {
    var C := Candidates(st);
    match LastCoreferent(doc, C, ana)
    case Some(i) =>
      assert LatestMatch(doc, C, ana, i);
      assert C[i] in Chained(st.entities);
      ChainOfMention(st, C[i]);
      AttachMention(st, ana, C[i])
    case None =>
      assert forall c :: c in C ==> !IsCoreferent(doc, c, ana);
      if ana !in st.mentions then NewEntity(st, ana) else st
  }

  /**
    A noun not yet in any chain keeps the registry invariant: it either becomes
    chained or, already known to `mentions` without a match, changes nothing.
    From an exact registry it always becomes chained.
   */
  lemma ResolveNominalKeepsInv(doc: Document, st: State, ana: TokenId)
    requires Inv(st)
    ensures ana !in Chained(st.entities) ==> var r := ResolveNominal(doc, st, ana);
      Inv(r) && (Chained(r.entities) == Chained(st.entities) + {ana} || (r == st && ana in st.mentions))
    ensures Exact(st) && ana !in Chained(st.entities) ==> var r := ResolveNominal(doc, st, ana);
      Exact(r) && Chained(r.entities) == Chained(st.entities) + {ana}
  {
    var C := Candidates(st);
    match LastCoreferent(doc, C, ana)
    case Some(i) =>
      assert C[i] in Chained(st.entities);
      ChainOfMention(st, C[i]);
    case None =>
  }

  /** Nominal resolution forgets no mention, and afterwards `mentions` knows the noun. */
  lemma ResolveNominalFrame(doc: Document, st: State, ana: TokenId)
    requires Inv(st)
    ensures var r := ResolveNominal(doc, st, ana);
      st.mentions.Keys + {ana} == r.mentions.Keys
  {
    match LastCoreferent(doc, Candidates(st), ana)
    case Some(i) =>
      assert Candidates(st)[i] in Chained(st.entities);
      ChainOfMention(st, Candidates(st)[i]);
    case None =>
  }

  /** With a same-lemma candidate, the noun joins the entity of the latest one. */
  lemma ResolveNominalJoinsLatest(doc: Document, st: State, ana: TokenId, i: nat)
    requires Inv(st) && LatestMatch(doc, Candidates(st), ana, i)
    ensures Candidates(st)[i] in st.mentions
    ensures ResolveNominal(doc, st, ana) == AttachMention(st, ana, Candidates(st)[i])
  {
    assert Candidates(st)[i] in Chained(st.entities);
    ChainOfMention(st, Candidates(st)[i]);
  }

  /**
    Nominal resolution as written: the first candidate examined is handed to
    `is_coreferent(self, ...)`, which raises, so only a noun with no candidate
    at all gets through.
   */
  function ResolveNominalAsWritten(doc: Document, st: State, ana: TokenId): (r: Result<State, StepError>)
    requires Inv(st)
    ensures r.Failure? <==> |Candidates(st)| > 0
    ensures r.Success? ==> r.value == ResolveNominal(doc, st, ana)
  {
    if |Candidates(st)| > 0 then Failure(MissingDocumentAttribute)
    else if ana !in st.mentions then Success(NewEntity(st, ana))
    else Success(st)
  }

  /** The second noun of any document already fails, whereas the intended resolution goes through. */
  lemma AsWrittenSecondNounRaises(doc: Document)
    ensures var st := NewEntity(Initial, Tid(1, 1));
      Inv(st) && ResolveNominalAsWritten(doc, st, Tid(1, 2)).Failure?
      && Tid(1, 2) in ResolveNominal(doc, st, Tid(1, 2)).mentions
  {
    var st := NewEntity(Initial, Tid(1, 1));
    assert st.entities == map[Tid(1, 1) := [Tid(1, 1)]];
    assert Inv(st);
    CandidatesOneEntity(st, Tid(1, 1));
    ResolveNominalKeepsInv(doc, st, Tid(1, 2));
  }

  // ---------------------------------------------------------------------------
  // Pronominal resolution

  /**
    The score of candidate `c` for anaphora `ana` under weights `w`:
    parallelism, subject, accusative object, dative object, plus `w[4]` times the
    logarithm of the chain length, minus `w[5]` times the sentence distance,
    minus `w[6]` times the depth. `log` stands for the natural logarithm.
   */
  function Score(doc: Document, st: State, c: TokenId, ana: TokenId, w: seq<int>, log: nat -> real): real
    requires |w| == 7
  {
    (if CheckParallelism(doc, c, ana) then w[0] as real else 0.0)
    + (if CheckRole(doc, c, "SB") then w[1] as real else 0.0)
    + (if CheckRole(doc, c, "OA") then w[2] as real else 0.0)
    + (if CheckRole(doc, c, "DA") then w[3] as real else 0.0)
    + (w[4] as real) * log(ChainLength(st, c))
    - (w[5] as real) * (Distance(c, ana) as real)
    - (w[6] as real) * (Depth(doc, c) as real)
  }

  /** The weight a candidate earns for its role: `w[1]` for a subject, `w[2]` and `w[3]` for an accusative and a dative object. */
  function RoleWeight(role: string, w: seq<int>): real
    requires |w| == 7
  {
    if role == "SB" then w[1] as real
    else if role == "OA" then w[2] as real
    else if role == "DA" then w[3] as real
    else 0.0
  }

  /**
    Of the three role bonuses a candidate earns at most one, the one for the
    role it fills, since each role test reads the same dependency relation.
   */
  lemma ScoreOneRole(doc: Document, st: State, c: TokenId, ana: TokenId, w: seq<int>, log: nat -> real)
    requires |w| == 7
    ensures Score(doc, st, c, ana, w, log)
      == (if CheckParallelism(doc, c, ana) then w[0] as real else 0.0)
       + RoleWeight(At(doc, c).deprel, w)
       + (w[4] as real) * log(ChainLength(st, c))
       - (w[5] as real) * (Distance(c, ana) as real)
       - (w[6] as real) * (Depth(doc, c) as real)
  {
    RoleTerms(doc, c, w);
  }

  lemma RoleTerms(doc: Document, c: TokenId, w: seq<int>)
    requires |w| == 7
    ensures (if CheckRole(doc, c, "SB") then w[1] as real else 0.0)
          + (if CheckRole(doc, c, "OA") then w[2] as real else 0.0)
          + (if CheckRole(doc, c, "DA") then w[3] as real else 0.0)
         == RoleWeight(At(doc, c).deprel, w)
  {
  }

  /** The candidate with the greatest score; among equal scores, the latest in document order. */
  function BestScored(cands: seq<TokenId>, score: TokenId -> real): (r: TokenId)
    requires |cands| > 0
    ensures r in cands
    ensures forall c :: c in cands ==> score(c) < score(r) || (score(c) == score(r) && NotAfter(c, r))
  {
    if |cands| == 1 then cands[0]
    else
      var rest := BestScored(cands[1..], score);
      assert forall c :: c in cands ==> c == cands[0] || c in cands[1..];
      var c := cands[0];
      if score(c) > score(rest) || (score(c) == score(rest) && Before(rest, c)) then c else rest
  }

  /**
    The choice as the source writes it: the first of the `(score, id)` pairs
    sorted in descending order, where ids compare as strings.
   */
  function BestScoredAsWritten(cands: seq<TokenId>, score: TokenId -> real): (r: TokenId)
    requires |cands| > 0
    ensures r in cands
    ensures forall c :: c in cands ==>
      score(c) < score(r) || (score(c) == score(r) && !StrLess(TokenIdString(r), TokenIdString(c)))
  {
    if |cands| == 1 then
      StrLessIrreflexive(TokenIdString(cands[0]));
      cands[0]
    else
      var rest := BestScoredAsWritten(cands[1..], score);
      var c := cands[0];
      assert forall x :: x in cands ==> x == c || x in cands[1..];
      if score(c) > score(rest) || (score(c) == score(rest) && StrLess(TokenIdString(rest), TokenIdString(c))) then
        StrLessIrreflexive(TokenIdString(c));
        assert forall x :: x in cands[1..] && score(x) == score(c) ==> !StrLess(TokenIdString(c), TokenIdString(x)) by {
          forall x | x in cands[1..] && score(x) == score(c)
            ensures !StrLess(TokenIdString(c), TokenIdString(x))
          {
            if StrLess(TokenIdString(c), TokenIdString(x)) {
              StrLessTransitive(TokenIdString(rest), TokenIdString(c), TokenIdString(x));
            }
          }
        }
        c
      else
        rest
  }

  /**
    With equal scores the string tie-break prefers `s1_t9` to the later
    `s1_t10`, while the document-order tie-break prefers `s1_t10`.
   */
  lemma TieBreakAsWrittenPicksEarlier()
    ensures BestScoredAsWritten([Tid(1, 9), Tid(1, 10)], _ => 0.0) == Tid(1, 9)
    ensures BestScored([Tid(1, 9), Tid(1, 10)], _ => 0.0) == Tid(1, 10)
  {
    assert Decimal(9) == "9";
    assert Decimal(10) == "10";
    assert TokenIdString(Tid(1, 9)) == "s1_t9";
    assert TokenIdString(Tid(1, 10)) == "s1_t10";
    assert StrLess("s1_t10", "s1_t9");
  }

  /**
    The antecedent of a pronoun among its (nonempty) filtered candidates: the
    latest one for relative and demonstrative pronouns, the best-scored one for
    personal, reflexive and possessive pronouns.
   */
  function ChooseAntecedent(doc: Document, st: State, ana: TokenId, filtered: seq<TokenId>, w: seq<int>, log: nat -> real)
    : (a: TokenId)
    requires |filtered| > 0 && |w| == 7
    requires At(doc, ana).pos in PronounTags
    ensures a in filtered
    ensures At(doc, ana).pos in RecencyTags ==> forall c :: c in filtered ==> NotAfter(c, a)
    ensures At(doc, ana).pos in ScoredTags ==> forall c :: c in filtered ==>
      var sc := Score(doc, st, c, ana, w, log);
      var sa := Score(doc, st, a, ana, w, log);
      sc < sa || (sc == sa && NotAfter(c, a))
  {
    if At(doc, ana).pos in RecencyTags then MaxTok(filtered)
    else BestScored(filtered, c => Score(doc, st, c, ana, w, log))
  }

  /** For relative and demonstrative pronouns the weights do not matter. */
  lemma RecencyIgnoresWeights(doc: Document, st: State, ana: TokenId, filtered: seq<TokenId>,
                              w1: seq<int>, w2: seq<int>, log1: nat -> real, log2: nat -> real)
    requires |filtered| > 0 && |w1| == 7 && |w2| == 7
    requires At(doc, ana).pos in RecencyTags
    ensures ChooseAntecedent(doc, st, ana, filtered, w1, log1) == ChooseAntecedent(doc, st, ana, filtered, w2, log2)
  {
    var a1 := ChooseAntecedent(doc, st, ana, filtered, w1, log1);
    var a2 := ChooseAntecedent(doc, st, ana, filtered, w2, log2);
    assert NotAfter(a1, a2) && NotAfter(a2, a1);
  }

  /** With only the distance weight set, the score is the weighted distance, negated. */
  lemma ScoreDistanceOnly(doc: Document, st: State, c: TokenId, ana: TokenId, w5: int, log: nat -> real)
    ensures Score(doc, st, c, ana, [0, 0, 0, 0, 0, w5, 0], log) == -(w5 as real) * (Distance(c, ana) as real)
  {
  }

  /** Scaling by a negative factor reverses the order. */
  lemma ScaleCancels(k: real, sx: real, sy: real, x: nat, y: nat)
    requires k > 0.0 && sy <= sx && sx == -k * (x as real) && sy == -k * (y as real)
    ensures x <= y
  {
  }

  /** With only the distance weight set, a score no higher means a distance no smaller. */
  lemma DistanceOnlyAntitone(doc: Document, st: State, c: TokenId, d: TokenId, ana: TokenId, w5: int, log: nat -> real)
    requires w5 > 0
    requires Score(doc, st, c, ana, [0, 0, 0, 0, 0, w5, 0], log) <= Score(doc, st, d, ana, [0, 0, 0, 0, 0, w5, 0], log)
    ensures Distance(d, ana) <= Distance(c, ana)
  {
    var w := [0, 0, 0, 0, 0, w5, 0];
    ScoreDistanceOnly(doc, st, c, ana, w5, log);
    ScoreDistanceOnly(doc, st, d, ana, w5, log);
    ScaleCancels(w5 as real, Score(doc, st, d, ana, w, log), Score(doc, st, c, ana, w, log),
                 Distance(d, ana), Distance(c, ana));
  }

  /**
    If a score no higher always means a distance no smaller, the best-scored
    candidate is one at the least distance.
   */
  lemma BestScoredNearest(cands: seq<TokenId>, score: TokenId -> real, dist: TokenId -> nat)
    requires |cands| > 0
    requires forall c, d :: c in cands && d in cands && score(c) <= score(d) ==> dist(d) <= dist(c)
    ensures forall c :: c in cands ==> dist(BestScored(cands, score)) <= dist(c)
  {
    var a := BestScored(cands, score);
    forall c | c in cands ensures dist(a) <= dist(c) {
      assert score(c) <= score(a);
    }
  }

  /**
    When only sentence distance is weighted, a scored pronoun takes a candidate
    from the nearest sentence among its candidates.
   */
  lemma DistanceOnlyPrefersNearest(doc: Document, st: State, ana: TokenId, filtered: seq<TokenId>,
                                   w5: int, log: nat -> real)
    requires |filtered| > 0 && w5 > 0
    requires At(doc, ana).pos in ScoredTags
    ensures var a := ChooseAntecedent(doc, st, ana, filtered, [0, 0, 0, 0, 0, w5, 0], log);
      forall c :: c in filtered ==> Distance(a, ana) <= Distance(c, ana)
  {
    var w := [0, 0, 0, 0, 0, w5, 0];
    var f := c => Score(doc, st, c, ana, w, log);
    var dist := c => Distance(c, ana);
    forall c, d | c in filtered && d in filtered && f(c) <= f(d) ensures dist(d) <= dist(c) {
      DistanceOnlyAntitone(doc, st, c, d, ana, w5, log);
    }
    BestScoredNearest(filtered, f, dist);
    assert BestScored(filtered, f) == ChooseAntecedent(doc, st, ana, filtered, w, log);
  }

  /**
    `_resolve_pronominal_anaphora`, given the filtered candidates: with none the
    pronoun starts an entity of its own and no antecedent is recorded; otherwise
    it joins the entity of the chosen antecedent, which is recorded.
   */
  function ResolvePronominal(doc: Document, st: State, ana: TokenId, filtered: seq<TokenId>, w: seq<int>, log: nat -> real)
    : (r: State)
    requires Inv(st) && |w| == 7
    requires At(doc, ana).pos in PronounTags
    requires IsSubseq(filtered, Candidates(st))
    ensures |filtered| == 0 ==> (r == NewEntity(st, ana) && ChainOf(r.entities, ana) == [ana]
                                 && r.anaToAnte == st.anaToAnte)
    ensures |filtered| > 0 ==>
      var a := ChooseAntecedent(doc, st, ana, filtered, w, log);
      && a in filtered && a in st.mentions
      && r == AttachMention(st, ana, a).(anaToAnte := st.anaToAnte[ana := a])
      && ana in r.anaToAnte && r.anaToAnte[ana] == a
    ensures ana !in Chained(st.entities) ==> Inv(r) && Chained(r.entities) == Chained(st.entities) + {ana}
    ensures Exact(st) && ana !in Chained(st.entities) ==> Exact(r)
  {
    if |filtered| == 0 then NewEntity(st, ana)
    else
      var a := ChooseAntecedent(doc, st, ana, filtered, w, log);
      SubseqMembers(filtered, Candidates(st));
      ChainOfMention(st, a);
      var attached := AttachMention(st, ana, a);
      attached.(anaToAnte := st.anaToAnte[ana := a])
  }

  // ---------------------------------------------------------------------------
  // The pass over the document

  /**
    A stand-in for `get_filtered_candidates`: given the registry, the full
    candidate list, the anaphora and the sentence window, it yields the
    candidates that survive filtering.
   */
  type CandidateFilter = (State, seq<TokenId>, TokenId, nat) -> seq<TokenId>

  /** A filter only ever drops candidates; it never adds or reorders any. */
  ghost predicate GoodFilter(filter: CandidateFilter) {
    forall st, cands, ana, d :: IsSubseq(filter(st, cands, ana, d), cands)
  }

  /** The four-stage pipeline is an admissible filter. */
  lemma PipelineIsGoodFilter(doc: Document)
    ensures GoodFilter((st: State, cands: seq<TokenId>, ana: TokenId, d: nat) => FilteredCandidates(doc, st, cands, ana, d))
  {
    forall st, cands, ana, d
      ensures IsSubseq(FilteredCandidates(doc, st, cands, ana, d), cands)
    {
    }
  }

  /** One token of the pass. */
  function ResolveToken(doc: Document, st: State, t: TokenId, w: seq<int>, maxSentDist: nat,
                        filter: CandidateFilter, log: nat -> real): (r: State)
    requires Inv(st) && |w| == 7 && GoodFilter(filter)
    ensures Classify(doc, t) == Skipped ==> r == st
    ensures t !in Chained(st.entities) ==> Inv(r) && Chained(r.entities) <= Chained(st.entities) + {t}
    ensures Exact(st) && t !in Chained(st.entities) ==>
      Exact(r) && Chained(r.entities) == Chained(st.entities) + (if Classify(doc, t) == Skipped then {} else {t})
    ensures Classify(doc, t) == Nominal ==> r == ResolveNominal(doc, st, t)
    ensures Classify(doc, t) == Pronominal ==>
      r == ResolvePronominal(doc, st, t, filter(st, Candidates(st), t, maxSentDist), w, log)
  {
    match Classify(doc, t)
    case Nominal =>
      ResolveNominalKeepsInv(doc, st, t);
      ResolveNominal(doc, st, t)
    case Pronominal =>
      var filtered := filter(st, Candidates(st), t, maxSentDist);
      ResolvePronominal(doc, st, t, filtered, w, log)
    case Skipped => st
  }

  /** The tokens of `ids` that the pass registers. */
  function Handled(doc: Document, ids: seq<TokenId>): set<TokenId> {
    set t | t in ids && Classify(doc, t) != Skipped
  }

  /** Splitting off the first token of the pass. */
  lemma HandledCons(doc: Document, ids: seq<TokenId>)
    requires |ids| > 0
    ensures Handled(doc, ids) == (if Classify(doc, ids[0]) == Skipped then {} else {ids[0]}) + Handled(doc, ids[1..])
  {
    assert forall u :: u in ids <==> u == ids[0] || u in ids[1..];
  }

  /** The tail of a duplicate-free list avoids its head, and inherits any property of its members. */
  lemma TailFresh(ids: seq<TokenId>, chained: set<TokenId>)
    requires |ids| > 0 && NoDup(ids)
    requires forall t :: t in ids ==> t !in chained
    ensures NoDup(ids[1..])
    ensures forall u :: u in ids[1..] ==> u !in chained + {ids[0]}
  {
    forall u | u in ids[1..] ensures u !in chained + {ids[0]} {
      var j :| 0 <= j < |ids[1..]| && ids[1..][j] == u;
      assert ids[j + 1] == u;
    }
  }

  /** The pass over `ids`, token by token. */
  function ResolveAll(doc: Document, st: State, ids: seq<TokenId>, w: seq<int>, maxSentDist: nat,
                      filter: CandidateFilter, log: nat -> real): (r: State)
    requires Inv(st) && |w| == 7 && GoodFilter(filter)
    requires NoDup(ids)
    requires forall t :: t in ids ==> t !in Chained(st.entities)
    ensures Inv(r)
    ensures Chained(r.entities) <= Chained(st.entities) + Handled(doc, ids)
    ensures Exact(st) ==> Exact(r) && Chained(r.entities) == Chained(st.entities) + Handled(doc, ids)
    decreases |ids|
  {
    if |ids| == 0 then st
    else
      var t := ids[0];
      var next := ResolveToken(doc, st, t, w, maxSentDist, filter, log);
      var step: set<TokenId> := if Classify(doc, t) == Skipped then {} else {t};
      assert Inv(next) && Chained(next.entities) <= Chained(st.entities) + step;
      assert Exact(st) ==> Exact(next) && Chained(next.entities) == Chained(st.entities) + step;
      TailFresh(ids, Chained(st.entities));
      HandledCons(doc, ids);
      var r := ResolveAll(doc, next, ids[1..], w, maxSentDist, filter, log);
      ChainedGrowth(Chained(st.entities), Chained(next.entities), Chained(r.entities),
                    step, Handled(doc, ids[1..]), Exact(st));
      r
  }

  /** Set bookkeeping for one step of the pass followed by the rest of it. */
  lemma ChainedGrowth(c0: set<TokenId>, c1: set<TokenId>, c2: set<TokenId>,
                      step: set<TokenId>, rest: set<TokenId>, exact: bool)
    requires c1 <= c0 + step && c2 <= c1 + rest
    requires exact ==> c1 == c0 + step && c2 == c1 + rest
    ensures c2 <= c0 + (step + rest)
    ensures exact ==> c2 == c0 + (step + rest)
  {
  }

  /**
    One step never forgets a mention, and records an antecedent only for the
    token itself, and only when it is resolved as a pronoun.
   */
  lemma ResolveTokenFrame(doc: Document, st: State, t: TokenId, w: seq<int>, maxSentDist: nat,
                          filter: CandidateFilter, log: nat -> real)
    requires Inv(st) && |w| == 7 && GoodFilter(filter)
    ensures var r := ResolveToken(doc, st, t, w, maxSentDist, filter, log);
      && st.mentions.Keys <= r.mentions.Keys
      && forall a :: a in r.anaToAnte ==> a in st.anaToAnte || (a == t && Classify(doc, t) == Pronominal)
  {
    if Classify(doc, t) == Nominal {
      ResolveNominalFrame(doc, st, t);
    }
  }

  /**
    The pass never forgets a mention, and every antecedent it records belongs
    to a token of the pass resolved as a pronoun.
   */
  lemma {:induction false} ResolveAllFrame(doc: Document, st: State, ids: seq<TokenId>, w: seq<int>, maxSentDist: nat,
                                           filter: CandidateFilter, log: nat -> real)
    requires Inv(st) && |w| == 7 && GoodFilter(filter)
    requires NoDup(ids)
    requires forall t :: t in ids ==> t !in Chained(st.entities)
    ensures var r := ResolveAll(doc, st, ids, w, maxSentDist, filter, log);
      && st.mentions.Keys <= r.mentions.Keys
      && forall a :: a in r.anaToAnte ==> a in st.anaToAnte || (a in ids && Classify(doc, a) == Pronominal)
    decreases |ids|
  {
    if |ids| > 0 {
      var next := ResolveToken(doc, st, ids[0], w, maxSentDist, filter, log);
      ResolveTokenFrame(doc, st, ids[0], w, maxSentDist, filter, log);
      TailFresh(ids, Chained(st.entities));
      ResolveAllFrame(doc, next, ids[1..], w, maxSentDist, filter, log);
      assert forall a :: a in ids[1..] ==> a in ids;
    }
  }

  // ---------------------------------------------------------------------------
  // Weight validation and the whole run

  /** One item of the `weights` list: a Python integer of any size, or something else. */
  datatype WeightItem = IntWeight(value: int) | NonIntWeight

  /** `sys.maxint` of Python 2 on a 64-bit platform; integers beyond it are of type `long`. */
  const MaxInt: int := 0x7FFF_FFFF_FFFF_FFFF

  /** `isinstance(item, int)` under Python 2: an integer within the machine range. */
  predicate IsPlainInt(item: WeightItem) {
    item.IntWeight? && -MaxInt - 1 <= item.value <= MaxInt
  }

  /** The `weights` argument as received: a list of items, or something that is not a list. */
  datatype WeightArg = WeightList(items: seq<WeightItem>) | NotAList

  datatype WeightError = NotAListError | NonIntegerWeight | WrongWeightCount(count: nat)

  /** The three assertions at the start of `resolve_anaphora`, in their order. */
  function CheckWeights(arg: WeightArg): (res: Result<seq<int>, WeightError>)
    ensures res.Success? <==> arg.WeightList? && |arg.items| == 7 && forall i :: 0 <= i < |arg.items| ==> IsPlainInt(arg.items[i])
    ensures res.Success? ==> |res.value| == 7 && forall i :: 0 <= i < 7 ==> res.value[i] == arg.items[i].value
    ensures arg.NotAList? ==> res == Failure(NotAListError)
    ensures arg.WeightList? && (exists i :: 0 <= i < |arg.items| && !IsPlainInt(arg.items[i])) ==> res == Failure(NonIntegerWeight)
    ensures arg.WeightList? && (forall i :: 0 <= i < |arg.items| ==> IsPlainInt(arg.items[i])) && |arg.items| != 7 ==>
      res == Failure(WrongWeightCount(|arg.items|))
  {
    match arg
    case NotAList => Failure(NotAListError)
    case WeightList(items) =>
      if exists i :: 0 <= i < |items| && !IsPlainInt(items[i]) then Failure(NonIntegerWeight)
      else if |items| != 7 then Failure(WrongWeightCount(|items|))
      else Success(seq(7, i requires 0 <= i < 7 => items[i].value))
  }

  /** Three weights are rejected before anything is resolved. */
  lemma ShortWeightsRejected()
    ensures CheckWeights(WeightList([IntWeight(1), IntWeight(2), IntWeight(3)])) == Failure(WrongWeightCount(3))
  {
  }

  /** A weight just beyond `sys.maxint` is a `long`, which the integer check rejects. */
  lemma LongWeightRejected()
    ensures CheckWeights(WeightList([IntWeight(MaxInt + 1), IntWeight(2), IntWeight(8), IntWeight(3),
                                     IntWeight(2), IntWeight(7), IntWeight(0)])) == Failure(NonIntegerWeight)
  {
    var items := [IntWeight(MaxInt + 1), IntWeight(2), IntWeight(8), IntWeight(3),
                  IntWeight(2), IntWeight(7), IntWeight(0)];
    assert !IsPlainInt(items[0]);
  }

  /** The default `weights` argument, as the caller passes it. */
  const DefaultWeightArg: WeightArg :=
    WeightList([IntWeight(8), IntWeight(2), IntWeight(8), IntWeight(3), IntWeight(2), IntWeight(7), IntWeight(0)])

  /** The default weights pass validation unchanged. */
  lemma DefaultWeightsAccepted()
    ensures CheckWeights(DefaultWeightArg) == Success(DefaultWeights)
  {
    var items := DefaultWeightArg.items;
    assert forall i :: 0 <= i < |items| ==> IsPlainInt(items[i]);
    assert DefaultWeightArg.WeightList? && |items| == 7;
    var res := CheckWeights(DefaultWeightArg);
    assert res.Success?;
    assert |res.value| == |DefaultWeights|;
    assert forall i :: 0 <= i < 7 ==> res.value[i] == DefaultWeights[i];
    assert res.value == DefaultWeights;
  }

  /**
    `resolve_anaphora` with its reset as written: after validating the weights
    it clears `entities` and `ana_to_ante` but keeps `mentions`, then resolves
    every token of the document in order. A failure leaves the caller's state
    as it was. Each step is the intended one (`ResolveToken`): the document is
    read directly and antecedents are chosen in document order, unlike the
    string comparisons and `AttributeError`s that `ClassifyAsWritten`,
    `ResolveNominalAsWritten`, `MaxByIdString` and `BestScoredAsWritten` model.
   */
  function ResolveAnaphora(doc: Document, st: State, weights: WeightArg, maxSentDist: nat,
                           filter: CandidateFilter, log: nat -> real): (res: Result<State, WeightError>)
    requires GoodFilter(filter)
    ensures CheckWeights(weights).Failure? ==> res == Failure(CheckWeights(weights).error)
    ensures CheckWeights(weights).Success? ==> res.Success?
    ensures res.Success? ==> Inv(res.value)
    ensures res.Success? ==> forall t :: t in Chained(res.value.entities) ==> ValidId(doc, t) && Classify(doc, t) != Skipped
    ensures res.Success? ==> st.mentions.Keys <= res.value.mentions.Keys
    ensures res.Success? ==> forall a :: a in res.value.anaToAnte ==> ValidId(doc, a) && Classify(doc, a) == Pronominal
  {
    match CheckWeights(weights)
    case Failure(e) => Failure(e)
    case Success(w) =>
      var cleared := State(map[], st.mentions, map[]);
      var ids := AllIds(doc);
      AllIdsSpec(doc);
      StrictlySortedIsSorted(ids);
      var r := ResolveAll(doc, cleared, ids, w, maxSentDist, filter, log);
      ResolveAllFrame(doc, cleared, ids, w, maxSentDist, filter, log);
      Success(r)
  }

  /**
    The run as intended: all three maps are cleared, so the result depends on
    the document and the parameters only, and every token the controller
    treats, and no other, ends up in exactly one chain.
   */
  function ResolveAnaphoraFresh(doc: Document, st: State, weights: WeightArg, maxSentDist: nat,
                                filter: CandidateFilter, log: nat -> real): (res: Result<State, WeightError>)
    requires GoodFilter(filter)
    ensures CheckWeights(weights).Failure? ==> res == Failure(CheckWeights(weights).error)
    ensures CheckWeights(weights).Success? ==> res.Success?
    ensures res.Success? ==> Inv(res.value) && Exact(res.value)
    ensures res.Success? ==> forall t :: t in Chained(res.value.entities) <==> ValidId(doc, t) && Classify(doc, t) != Skipped
    ensures res.Success? ==> forall a :: a in res.value.anaToAnte ==> ValidId(doc, a) && Classify(doc, a) == Pronominal
  {
    match CheckWeights(weights)
    case Failure(e) => Failure(e)
    case Success(w) =>
      var ids := AllIds(doc);
      AllIdsSpec(doc);
      StrictlySortedIsSorted(ids);
      var r := ResolveAll(doc, Initial, ids, w, maxSentDist, filter, log);
      ResolveAllFrame(doc, Initial, ids, w, maxSentDist, filter, log);
      assert forall t :: t in Handled(doc, ids) <==> ValidId(doc, t) && Classify(doc, t) != Skipped;
      Success(r)
  }

  /**
    The intended run never reads the state it starts from, so any two starting
    states give the same result; the run as written does read it, through the
    `mentions` it keeps (see `RerunLosesUnmatchedNoun`).
   */
  lemma FreshRunIgnoresPriorState(doc: Document, st1: State, st2: State, weights: WeightArg, maxSentDist: nat,
                                  filter: CandidateFilter, log: nat -> real)
    requires GoodFilter(filter)
    ensures ResolveAnaphoraFresh(doc, st1, weights, maxSentDist, filter, log)
         == ResolveAnaphoraFresh(doc, st2, weights, maxSentDist, filter, log)
  {
  }

  /** On a fresh instance the run with the reset as written and the intended run agree. */
  lemma FirstRunAgrees(doc: Document, weights: WeightArg, maxSentDist: nat,
                       filter: CandidateFilter, log: nat -> real)
    requires GoodFilter(filter)
    ensures ResolveAnaphora(doc, Initial, weights, maxSentDist, filter, log)
         == ResolveAnaphoraFresh(doc, Initial, weights, maxSentDist, filter, log)
  {
  }

  /**
    Running the resolver twice on the same instance: the second run finds the
    noun "Hund" still in `mentions`, so it never registers it again and ends
    with no entities at all, whereas the intended run repeats the first result.
   */
  lemma RerunLosesUnmatchedNoun(filter: CandidateFilter, log: nat -> real)
    requires GoodFilter(filter)
    ensures var doc := [[Token("Hund", "Hund", "NN", "SB", 0, Some("masc"), Some("3"), Some("sg"))]];
      var w := DefaultWeightArg;
      var once := State(map[Tid(1, 1) := [Tid(1, 1)]], map[Tid(1, 1) := Tid(1, 1)], map[]);
      && ResolveAnaphora(doc, Initial, w, 4, filter, log) == Success(once)
      && ResolveAnaphora(doc, once, w, 4, filter, log) == Success(State(map[], map[Tid(1, 1) := Tid(1, 1)], map[]))
      && ResolveAnaphoraFresh(doc, once, w, 4, filter, log) == Success(once)
  {
    var doc := [[Token("Hund", "Hund", "NN", "SB", 0, Some("masc"), Some("3"), Some("sg"))]];
    assert AllIds(doc) == [Tid(1, 1)];
    assert Classify(doc, Tid(1, 1)) == Nominal;
    CandidatesNone(Initial);
    CandidatesNone(State(map[], map[Tid(1, 1) := Tid(1, 1)], map[]));
  }

  /**
    A noun whose lemma matches the only known mention joins that mention's
    entity: "Hund" in sentence 3 after "Hund" in sentence 1 gives a chain of two.
   */
  lemma NominalScenario(doc: Document)
    requires ValidId(doc, Tid(1, 2)) && ValidId(doc, Tid(3, 2))
    requires At(doc, Tid(1, 2)).baseForm == "Hund" && At(doc, Tid(3, 2)).baseForm == "Hund"
    ensures var st := NewEntity(Initial, Tid(1, 2));
      var r := ResolveNominal(doc, st, Tid(3, 2));
      ChainOf(r.entities, Tid(1, 2)) == [Tid(1, 2), Tid(3, 2)] && r.mentions[Tid(3, 2)] == Tid(1, 2)
  {
    var st := NewEntity(Initial, Tid(1, 2));
    assert st.entities == map[Tid(1, 2) := [Tid(1, 2)]];
    assert Inv(st);
    CandidatesOneEntity(st, Tid(1, 2));
    ResolveNominalJoinsLatest(doc, st, Tid(3, 2), 0);
  }
}
