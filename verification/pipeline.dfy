/**
  A candidate filter for pronouns built from the filters of this model, in four
  stages: a window of preceding sentences, no reflexive antecedents,
  morphological agreement and the binding principles. Each stage keeps a
  subsequence of what the previous one left. `get_filtered_candidates` has no
  body in the repository; this pipeline is one filter the resolver accepts.
 */
module Pipeline {
  import opened Common
  import opened Ids
  import opened Documents
  import opened Registry
  import opened Filters
  import opened Preferences

  /** Default number of preceding sentences searched for antecedents. */
  const DefaultMaxSentDist: nat := 4

  function WithinDistance(cands: seq<TokenId>, ana: TokenId, maxSentDist: nat): seq<TokenId> {
    Keep(cands, c => Distance(c, ana) <= maxSentDist)
  }

  function NotReflexive(doc: Document, cands: seq<TokenId>): seq<TokenId> {
    Keep(cands, c => At(doc, c).pos != "PRF")
  }

  function Agreeing(doc: Document, cands: seq<TokenId>, ana: TokenId): seq<TokenId> {
    Keep(cands, c => MorphAgreement(At(doc, c), At(doc, ana)))
  }

  function Bindable(doc: Document, st: State, cands: seq<TokenId>, ana: TokenId): seq<TokenId> {
    Keep(cands, c => IsBound(doc, st.entities, c, ana))
  }

  /** All four stages, applied in order. */
  function FilteredCandidates(doc: Document, st: State, cands: seq<TokenId>, ana: TokenId, maxSentDist: nat)
    : (r: seq<TokenId>)
    ensures IsSubseq(r, cands)
    ensures forall c :: c in r <==>
      && c in cands
      && Distance(c, ana) <= maxSentDist
      && At(doc, c).pos != "PRF"
      && MorphAgreement(At(doc, c), At(doc, ana))
      && IsBound(doc, st.entities, c, ana)
  {
    var d := WithinDistance(cands, ana, maxSentDist);
    var n := NotReflexive(doc, d);
    var a := Agreeing(doc, n, ana);
    var b := Bindable(doc, st, a, ana);
    SubseqTransitive(n, d, cands);
    SubseqTransitive(a, n, cands);
    SubseqTransitive(b, a, cands);
    b
  }

  /** Every stage's output is contained in the previous stage's output. */
  lemma PipelineMonotone(doc: Document, st: State, cands: seq<TokenId>, ana: TokenId, maxSentDist: nat)
    ensures var d := WithinDistance(cands, ana, maxSentDist);
      var n := NotReflexive(doc, d);
      var a := Agreeing(doc, n, ana);
      var b := Bindable(doc, st, a, ana);
      IsSubseq(d, cands) && IsSubseq(n, d) && IsSubseq(a, n) && IsSubseq(b, a)
      && b == FilteredCandidates(doc, st, cands, ana, maxSentDist)
  {
  }

  /**
    A reflexive pronoun keeps only candidates in its own clause: one in another
    sentence is dropped, one earlier in the same clause survives. Sentence 1 is
    "Maria lacht ."; sentence 2 is "Peter wäscht sich .".
   */
  lemma ReflexiveScenario()
    ensures var doc := [
        [ Token("Maria", "Maria", "NE", "SB", 2, Some("fem"), Some("3"), Some("sg")),
          Token("lacht", "lachen", "VVFIN", "ROOT", 0, None, None, None),
          Token(".", ".", "$.", "PUNC", 2, None, None, None) ],
        [ Token("Peter", "Peter", "NE", "SB", 2, Some("masc"), Some("3"), Some("sg")),
          Token("wäscht", "waschen", "VVFIN", "ROOT", 0, None, None, None),
          Token("sich", "sich", "PRF", "OA", 2, None, Some("3"), Some("sg")),
          Token(".", ".", "$.", "PUNC", 2, None, None, None) ]];
      var st := State(map[Tid(1, 1) := [Tid(1, 1)], Tid(2, 1) := [Tid(2, 1)]],
                      map[Tid(1, 1) := Tid(1, 1), Tid(2, 1) := Tid(2, 1)], map[]);
      var f := FilteredCandidates(doc, st, [Tid(1, 1), Tid(2, 1)], Tid(2, 3), DefaultMaxSentDist);
      Tid(1, 1) !in f && Tid(2, 1) in f
  {
    var doc := [
        [ Token("Maria", "Maria", "NE", "SB", 2, Some("fem"), Some("3"), Some("sg")),
          Token("lacht", "lachen", "VVFIN", "ROOT", 0, None, None, None),
          Token(".", ".", "$.", "PUNC", 2, None, None, None) ],
        [ Token("Peter", "Peter", "NE", "SB", 2, Some("masc"), Some("3"), Some("sg")),
          Token("wäscht", "waschen", "VVFIN", "ROOT", 0, None, None, None),
          Token("sich", "sich", "PRF", "OA", 2, None, Some("3"), Some("sg")),
          Token(".", ".", "$.", "PUNC", 2, None, None, None) ]];
    var st := State(map[Tid(1, 1) := [Tid(1, 1)], Tid(2, 1) := [Tid(2, 1)]],
                    map[Tid(1, 1) := Tid(1, 1), Tid(2, 1) := Tid(2, 1)], map[]);
    var ana := Tid(2, 3);
    assert At(doc, ana).pos == "PRF";
    assert LeftBoundary(doc, 2, 3) == 1;
    assert RightBoundary(doc, 2, 3) == 4;
    assert !IsBound(doc, st.entities, Tid(1, 1), ana);
    assert IsBound(doc, st.entities, Tid(2, 1), ana);
    assert MorphAgreement(At(doc, Tid(2, 1)), At(doc, ana));
  }
}
