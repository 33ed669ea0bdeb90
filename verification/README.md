# pocores: a Dafny model of the coreference resolver

Pocores resolves anaphora in German dependency-parsed text. It makes one pass over
the tokens of a document:

- A noun or proper noun that is not part of a name (`PNC`) is resolved
  nominally. It joins the entity of the latest known mention with the same lemma,
  or else starts an entity of its own.
- A pronoun (`PPER`, `PRELS`, `PRF`, `PPOSAT`, `PDS`) that is not an expletive
  "es" is resolved pronominally. Its candidates are filtered first. A relative or
  demonstrative pronoun then takes the most recent survivor. A personal,
  reflexive or possessive pronoun takes the survivor with the best weighted score
  (parallelism, syntactic role, chain length, sentence distance and depth). If no
  candidate survives, the pronoun starts an entity of its own.

The resolver's state is three maps:

- `entities`: first mention to all mentions;
- `mentions`: mention to first mention;
- `ana_to_ante`: pronoun to the antecedent chosen.

The model has eight modules:

- `Common`: `Option`/`Result`, duplicate-freedom, the subsequence relation and
  `Keep` (filtering a sequence).
- `Ids`: token ids `Tid(sent, word)` and document order (what sorting with a
  natural-sort key gives). It also covers `mintok`/`maxtok`, sorting, the textual
  id `s<sent>_t<word>` (`tokentuple2id`) with its decimal round trip, and Python's
  string order on those ids.
- `Documents`: the document as sentences of token records, every id in order,
  and the upward path through dependency heads.
- `Registry`: the three maps as `State`, with the invariant `Inv` they keep.
  Every chain starts with its key and repeats nothing, and `mentions` maps each
  chained id to its chain. This module also holds `_get_candidates` and the two
  updates "start a new entity" and "attach a mention to an entity".
- `Filters`: `morph_agreement`/`feature_agreement`, clause boundaries and
  `is_bound`, `is_coreferent`, `is_expletive`.
- `Preferences`: `get_distance`, `check_role`, `check_parallelism`,
  `get_chain_length`, `get_depth`.
- `Pipeline`: a candidate filter built from the filters of this model. It has
  four stages (a window of preceding sentences, no reflexive antecedents,
  agreement, binding), and each keeps a subsequence of its input.
- `Resolution`: dispatch, nominal and pronominal resolution, scoring, weight
  validation, the pass over the document, and `resolve_anaphora`.

Several parts are modelled as parameters:

- `get_filtered_candidates`, `get_distance`, `check_role`, `check_parallelism`,
  `get_chain_length` and `get_depth` have no body in the repository (each raises
  `NotImplementedError`). The preference functions are modelled from their
  documentation.
- The candidate filter is a parameter of the resolver. `GoodFilter` is the
  contract the resolver relies on: the filter returns a subsequence of the
  candidates it is given. `Resolution.PipelineIsGoodFilter` shows that the
  four-stage pipeline meets it.
- The natural logarithm in the score is also a parameter.

Where the code and its documentation disagree about what the code computes,
the model follows the code:

- `morph_agreement` checks gender, person and number for every part of speech,
  possessives included, although its docstring says possessives skip number.

Where the code cannot run as written, or its comments say it means something
else, the model takes the evident intent for the resolver:

- `resolve_anaphora` and `_resolve_nominal_anaphora` pass the resolver itself
  where `is_expletive` and `is_coreferent` expect the document
  (main.py:243 and main.py:270). The resolver has neither `get_token` nor
  `node`, so every pronoun token and every noun with a candidate raises
  `AttributeError`. The model reads the document instead.
  `Resolution.ClassifyAsWritten` and `Resolution.ResolveNominalAsWritten` model
  the code as written (see Findings).
- For relative and demonstrative pronouns, `max(can_dict)` compares id strings.
  The scoring tie-break also compares id strings. The comments ask for the most
  recent and the closest candidate. `Resolution.ChooseAntecedent` uses document
  order. `Ids.MaxByIdString` and `Resolution.BestScoredAsWritten` model the
  string comparisons (see Findings).
- The score subtracts `weights[5] * filters.distance(...)`, but `filters` has no
  `distance`. The model uses the sentence distance of `get_distance`.
- `is_bound` calls its inner `anaphora_boundaries` with two arguments instead of
  four. It also takes `range` over the two boundary id strings. The model gives
  the evident intent: integer word positions and the half-open clause window
  `[begin, end)`.

`Resolution.ResolveAnaphora` therefore follows the code only in its reset,
which keeps `mentions`. Each of its steps is the intended one above.
`Resolution.ResolveAnaphoraFresh` also clears `mentions`.

## Model

| member | source | states |
|---|---|---|
| Ids.MinTok | src/pocores/main.py:502-507 | the result is one of the ids and no id occurs before it in the text |
| Ids.MaxTok | src/pocores/main.py:510-515 | the result is one of the ids and no id occurs after it in the text |
| Ids.MinMaxTokUnique | src/pocores/main.py:502-515 | any id that is a member and earliest (or latest) is the one `MinTok` (`MaxTok`) returns, so the choice is well defined |
| Ids.Sort | src/pocores/main.py:87-90 | sorting by the natural-sort key yields document order and is a permutation of its input |
| Ids.DecimalRoundTrip | src/pocores/filters.py:202-207 | the numeral written into a textual id reads back as the same number |
| Ids.TokenIdStringInjective | src/pocores/filters.py:202-207 | distinct (sentence, word) pairs get distinct textual ids `s<sent>_t<word>` |
| Ids.MaxByIdString | src/pocores/main.py:326-330 | `max` over the textual ids returns a candidate whose id string no other candidate's id string exceeds |
| Ids.MaxByIdStringSingleDigits | src/pocores/main.py:326-330 | while every sentence and word number has one digit, the string maximum is the latest candidate, so the two orders part only from position 10 on |
| Ids.MaxByIdStringPicksEarlier | src/pocores/main.py:328-330 | string order picks `s1_t9` over the later `s1_t10`, unlike the most recent candidate the comment asks for |
| Documents.AllIdsSpec | src/pocores/main.py:233-235 | the pass visits every token of the document exactly once, sentence by sentence and word by word |
| Registry.ChainsDisjoint | src/pocores/main.py:39-52 | under the invariant an id belongs to at most one entity |
| Registry.ChainOfMention | src/pocores/main.py:270-272 | the first mention that `mentions` gives for a chained id is the entity that contains it |
| Registry.Candidates | src/pocores/main.py:78-90 | the candidates are exactly the chained mentions of all entities, in document order, a permutation of the concatenated chains |
| Registry.CandidatesStrictlySorted | src/pocores/main.py:78-90 | under the invariant no candidate is listed twice |
| Registry.NewEntity | src/pocores/main.py:277-280 | the token becomes a one-element entity and its own first mention; all other entities and mentions are unchanged; the invariant is kept and the chained set grows by exactly the token |
| Registry.AttachMention | src/pocores/main.py:270-273 | the mention is appended to the antecedent's entity and mapped to its first mention; no other entity changes; invariant and exactness are kept |
| Filters.MorphAgreement | src/pocores/filters.py:42-97 | disagreement holds exactly when some feature is present on both tokens with different values |
| Filters.MorphAgreementSymmetric | src/pocores/filters.py:66-92 | agreement does not depend on which token is the antecedent |
| Filters.MorphAgreementTrivial | src/pocores/filters.py:66-92 | a token agrees with itself, and a token without features agrees with everything (underspecification) |
| Filters.PossessiveChecksNumber | src/pocores/filters.py:94-97 | a possessive that differs from its candidate in number only is rejected, as the code checks number for every part of speech |
| Filters.LeftBoundary | src/pocores/filters.py:151-161 | the left clause boundary is the nearest clause break at or before the word, or 1 if there is none |
| Filters.RightBoundary | src/pocores/filters.py:152-170 | the right clause boundary is the first clause break from the word on, before the last word, or the sentence length if there is none |
| Filters.ClauseBrackets | src/pocores/filters.py:126-174 | for a word of the document, `1 <= begin <= word <= end <= sentence length` |
| Filters.IsBound | src/pocores/filters.py:176-199 | states binding principles 1, 2 and 3, and that nothing else rules a candidate out |
| Filters.CoreferentReflexiveSymmetric | src/pocores/filters.py:210-238 | lemma identity is reflexive and symmetric |
| Filters.GoverningLemmas | src/pocores/filters.py:261-262 | the upward walk stays in the token's sentence: there are no more governing lemmas than words in it, and each is the lemma of one of its words |
| Filters.GoverningLemmasStep | src/pocores/filters.py:260-262 | in a well-formed tree a root-attached word has no governing lemmas; any other word has its head's lemma first, then the head's own governing lemmas |
| Filters.IsExpletive | src/pocores/filters.py:241-265 | only an "es"/"Es" can be expletive, and it is exactly when some governing word's lemma is an expletive verb |
| Preferences.Distance | src/pocores/preferences.py:19-28 | the distance is zero exactly for words of one sentence, and otherwise the difference of the sentence indices |
| Preferences.DistanceSymmetricIgnoresWords | src/pocores/preferences.py:19-28 | the distance is symmetric and ignores word positions |
| Preferences.DistanceExamples | src/pocores/preferences.py:23-26 | the two documented examples: 4 and 0 |
| Preferences.CheckRoleFunctional | src/pocores/preferences.py:31-35 | a word has the role its dependency relation names, and no second one |
| Preferences.CheckParallelism | src/pocores/preferences.py:4-16 | parallelism holds exactly when both words fill the same one of subject, accusative or dative object |
| Preferences.ChainLength | src/pocores/preferences.py:38-43 | an unknown word has chain length 0; a chained word has at least 1, the length of the entity containing it |
| Preferences.Depth | src/pocores/preferences.py:46-51 | a word attached to the root, or one outside the document, has depth 0 |
| Preferences.DepthOneBelowHead | src/pocores/preferences.py:46-51 | in a well-formed tree a word is exactly one edge deeper than its head |
| Preferences.DepthEndsAtRoot | src/pocores/preferences.py:46-51 | in a well-formed tree, the path whose length is the depth ends at a word attached to the root |
| Pipeline.FilteredCandidates | src/pocores/filters.py:15-39 | the survivors form a subsequence of the candidates; a candidate survives exactly when it is in the sentence window, not reflexive, agreeing, and bindable |
| Pipeline.PipelineMonotone | src/pocores/filters.py:15-39 | each stage keeps a subsequence of what the previous stage left |
| Pipeline.ReflexiveScenario | src/pocores/filters.py:178-182 | a reflexive loses a candidate from another sentence and keeps one from its own clause |
| Resolution.Classify | src/pocores/main.py:230-246 | nominal treatment holds exactly for `NN`/`NE` outside `PNC`; pronominal only for the five pronoun tags and not for an expletive; all other tokens are skipped |
| Resolution.ClassifyAsWritten | src/pocores/main.py:237-246 | as written, a noun is still told apart, but every other token with a pronoun tag raises `AttributeError` in `is_expletive(self, ...)`; otherwise the result is the intended classification |
| Resolution.AsWrittenPronounRaises | src/pocores/main.py:241-243 | for "Er schläft ." the personal pronoun raises as written, where it is meant for pronominal resolution |
| Resolution.ExpletiveScenario | src/pocores/filters.py:10-12 | the "es" of "es gibt keine Milch ." is expletive and skipped |
| Resolution.LastCoreferent | src/pocores/main.py:265-269 | with the candidates scanned from the latest back, the index found is a lemma match with no later match; no index means no match at all |
| Resolution.ResolveNominal | src/pocores/main.py:248-280 | `ana_to_ante` is untouched; without a same-lemma candidate the noun starts an entity unless `mentions` already knows it |
| Resolution.ResolveNominalKeepsInv | src/pocores/main.py:248-280 | a noun not yet chained keeps the registry invariant and either becomes chained or, already known to `mentions`, changes nothing; from an exact registry it always becomes chained |
| Resolution.ResolveNominalJoinsLatest | src/pocores/main.py:264-274 | with a same-lemma candidate, the noun joins the entity of the latest such candidate |
| Resolution.ResolveNominalFrame | src/pocores/main.py:264-280 | nominal resolution forgets no mention, and afterwards `mentions` knows the noun |
| Resolution.ResolveNominalAsWritten | src/pocores/main.py:264-271 | as written, the noun raises `AttributeError` exactly when there is any candidate, since the first `is_coreferent(self, ...)` call fails; with none it matches the intended resolution |
| Resolution.AsWrittenSecondNounRaises | src/pocores/main.py:264-271 | once one noun is registered, the next noun raises as written, whatever the document, where the intended resolution registers it |
| Resolution.BestScored | src/pocores/main.py:350-355 | the choice is a candidate whose score no candidate exceeds, and among equal scores the latest in document order |
| Resolution.BestScoredAsWritten | src/pocores/main.py:353-355 | the first of the `(score, id)` pairs sorted in descending order: no candidate has a higher score, or an equal score with a greater id string |
| Resolution.TieBreakAsWrittenPicksEarlier | src/pocores/main.py:350-355 | on equal scores the string tie-break picks `s1_t9` where the closest candidate is `s1_t10` |
| Resolution.ChooseAntecedent | src/pocores/main.py:324-355 | the antecedent is a filtered candidate; the latest for relative and demonstrative pronouns; the best-scored (latest on ties) for the others |
| Resolution.RecencyIgnoresWeights | src/pocores/main.py:327-330 | for relative and demonstrative pronouns the choice does not depend on the weights |
| Resolution.ScoreDistanceOnly | src/pocores/main.py:335-347 | with only the distance weight set, the score is the negated weighted sentence distance |
| Resolution.ScoreOneRole | src/pocores/main.py:335-347 | of the three role bonuses a candidate earns at most one, the weight for the role it fills; the other terms are parallelism, chain length, distance and depth |
| Resolution.DistanceOnlyPrefersNearest | src/pocores/main.py:335-355 | with only a positive distance weight, the chosen antecedent lies in a nearest sentence among the candidates |
| Resolution.ResolvePronominal | src/pocores/main.py:282-366 | no survivor means a new one-element entity and no recorded antecedent; otherwise the pronoun joins the chosen antecedent's entity and the antecedent is recorded; invariant kept |
| Resolution.PipelineIsGoodFilter | src/pocores/filters.py:15-39 | the four-stage pipeline only drops candidates, as the resolver requires of its filter |
| Resolution.ResolveToken | src/pocores/main.py:236-246 | a skipped token leaves the state unchanged; a noun goes to nominal and a pronoun to pronominal resolution with the filtered candidates; invariant kept, and only the token becomes chained |
| Resolution.ResolveAll | src/pocores/main.py:233-246 | after the pass the invariant holds, and starting from an exact state the chained ids are exactly the earlier ones plus the treated tokens |
| Resolution.ResolveTokenFrame | src/pocores/main.py:236-246 | one step forgets no mention and records an antecedent only for the token itself, and only when it is resolved as a pronoun |
| Resolution.ResolveAllFrame | src/pocores/main.py:233-246 | the pass forgets no mention, and every antecedent it records belongs to a token of the pass resolved as a pronoun |
| Resolution.CheckWeights | src/pocores/main.py:219-224 | the weights pass exactly when they are a list of seven Python 2 `int`s, i.e. integers within the 64-bit machine range; otherwise the first failing assertion, in the source's order, is reported |
| Resolution.ShortWeightsRejected | src/pocores/main.py:223-224 | three weights are rejected with their count |
| Resolution.LongWeightRejected | src/pocores/main.py:221-222 | a weight just beyond `sys.maxint` is a Python 2 `long` and fails the integer check |
| Resolution.DefaultWeightsAccepted | src/pocores/main.py:32 | the default weights `[8, 2, 8, 3, 2, 7, 0]` pass validation unchanged |
| Resolution.ResolveAnaphora | src/pocores/main.py:195-246 | invalid weights give the error; valid weights give a state that keeps the invariant, whose chains hold only document tokens that the controller treats, whose `mentions` keeps every earlier key, and whose `ana_to_ante` holds only this run's pronouns |
| Resolution.RerunLosesUnmatchedNoun | src/pocores/main.py:227-228 | a second run on the same instance leaves a lone noun unregistered, because `mentions` survives the reset |
| Resolution.ResolveAnaphoraFresh | src/pocores/main.py:195-246 | with all three maps reset, every treated token of the document and no other ends up in exactly one chain, `mentions` knows exactly those, and `ana_to_ante` holds only this run's pronouns |
| Resolution.FreshRunIgnoresPriorState | src/pocores/main.py:225-228 | the corrected run never reads the state it starts from: any two starting states give the same result |
| Resolution.FirstRunAgrees | src/pocores/main.py:37-52 | on a fresh instance the run with the reset as written and the corrected run agree |
| Resolution.NominalScenario | src/pocores/main.py:265-273 | a second "Hund" joins the entity of the first, giving a chain of two |

## Left out

- Reading CoNLL files, the command line, bracketed and brat output, entity grids, `_get_children`, `_get_word`, `_get_sentence` and `_get_coref_chains`. They are I/O or reporting around the core.
- `debug`/`verbose` flags and `filtered_results`. They only feed debugging output.
- The `deprel_attr`/`pos_attr`/`lemma_attrib` parameters. The model has one fixed record per token.
- Resolution.ResolveNominal: the return value (a first mention, or `None`) is not modelled, only the state change. No caller uses it.
- Resolution.ResolvePronominal: its return value is likewise left out.
- Resolution.ResolvePronominal: the filter results are a parameter. `get_filtered_candidates` has no body in the repository; its documented contract (a subset of the candidates, in order) is `GoodFilter`.
- Resolution.Score: the logarithm is a parameter, and scores are exact reals, so floating-point rounding is not modelled. `math.log(0)` cannot arise, because every candidate is chained and has chain length at least 1.
- Preferences.Depth: the upward path is cut off after as many steps as the sentence has words. A cyclic head structure therefore gives a finite depth here, where the dependency traversal library would not terminate. `traverse_dependencies_up` itself is not part of this model.
- Documents.At: an id outside the document reads as a blank token, where the source raises `KeyError`. The resolver only looks up document ids; `Resolution.ResolveAnaphora` proves every registered id is one.
- Filters.IsBound: reading `entity_map[antecedent]` on a `defaultdict` inserts an empty entry in the source. The model reads an absent key as an empty chain and inserts nothing. An empty chain adds no candidates, so `_get_candidates` is unaffected.
- Resolution.CheckWeights: a weight counts as a Python 2 `int` exactly when it lies within the 64-bit machine range, so a 32-bit platform is not modelled. An in-range `long` written as `5L` is treated as an `int`, and booleans are not modelled as weights, although `isinstance(True, int)` accepts them. Past validation the weights are unbounded integers, and the scores are exact reals.
- Resolution.ChooseAntecedent: candidates are ordered by document order, where the source compares id strings (main.py:330 and main.py:353-355). The string-order choices are `Ids.MaxByIdString` and `Resolution.BestScoredAsWritten`. The Findings table shows an input where they differ.
- Resolution.Classify: reads the document for the expletive test, where the source passes the resolver and raises (main.py:243). `Resolution.ClassifyAsWritten` models the code as written.
- Resolution.ResolveNominal: reads the document for the lemma test, where the source passes the resolver and raises (main.py:270). `Resolution.ResolveNominalAsWritten` models the code as written.

## Findings

| source | as written | input that shows it | evidently intended | confidence | as-written member | corrected member |
|---|---|---|---|---|---|---|
| src/pocores/main.py:330 | `max(can_dict)` takes the greatest id string as the most recent candidate | candidates `s1_t9` and `s1_t10`: string order gives `s1_t9` | the latest candidate in document order, `s1_t10` (comment at line 328) | high; not executed | Ids.MaxByIdStringPicksEarlier | Ids.MaxTok |
| src/pocores/main.py:353-355 | equal scores are broken by comparing id strings in descending order | equal scores for `s1_t9` and `s1_t10`: `s1_t9` is chosen | the closest candidate, `s1_t10` (comment at lines 350-351) | high; not executed | Resolution.TieBreakAsWrittenPicksEarlier | Resolution.BestScored |
| src/pocores/main.py:243 | `is_expletive(self, token_id)` passes the resolver, which has no `get_token`, as the document | "Er schläft .": the pronoun `Er` raises `AttributeError` at filters.py:260 | the document graph is passed, and the pronoun is resolved | high; not executed | Resolution.AsWrittenPronounRaises | Resolution.Classify |
| src/pocores/main.py:270 | `is_coreferent(self, antecedent, anaphora)` passes the resolver, which has no `node`, as the document | a document whose first two resolved tokens are nouns, e.g. "Hund ... Hund": the second raises `AttributeError` at filters.py:237 | the document graph is passed, and the noun joins the latest same-lemma mention | high; not executed | Resolution.AsWrittenSecondNounRaises | Resolution.ResolveNominalJoinsLatest |
| src/pocores/main.py:227-228 | `resolve_anaphora` clears `entities` and `ana_to_ante` but not `mentions` | running twice on the one-word document "Hund": the second run ends with no entity at all | a rerun repeats the first result | medium; not executed | Resolution.RerunLosesUnmatchedNoun | Resolution.ResolveAnaphoraFresh |
