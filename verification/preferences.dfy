/**
  Preference features used to rank the antecedent candidates of a pronoun:
  sentence distance, syntactic role, role parallelism, chain length and depth.
 */
module Preferences {
  import opened Ids
  import opened Documents
  import opened Registry

  /** `get_distance`: how many sentences apart two words are; word positions play no part. */
  function Distance(a: TokenId, b: TokenId): (d: nat)
    ensures d == 0 <==> a.sent == b.sent
    ensures a.sent + d == b.sent || b.sent + d == a.sent
  {
    if a.sent <= b.sent then b.sent - a.sent else a.sent - b.sent
  }

  /** Distance is symmetric and ignores the word positions. */
  lemma DistanceSymmetricIgnoresWords(a: TokenId, b: TokenId, w1: nat, w2: nat)
    ensures Distance(a, b) == Distance(b, a)
    ensures Distance(a, b) == Distance(Tid(a.sent, w1), Tid(b.sent, w2))
  {
  }

  /** The documented examples. */
  lemma DistanceExamples()
    ensures Distance(Tid(1, 2), Tid(5, 4)) == 4
    ensures Distance(Tid(1, 2), Tid(1, 9)) == 0
  {
  }

  /** `check_role`: the word's dependency relation is `role`. */
  predicate CheckRole(doc: Document, t: TokenId, role: string) {
    At(doc, t).deprel == role
  }

  /**
    A word has exactly one syntactic role: the one its dependency relation
    names, and no other.
   */
  lemma CheckRoleFunctional(doc: Document, t: TokenId, role1: string, role2: string)
    ensures CheckRole(doc, t, At(doc, t).deprel)
    ensures CheckRole(doc, t, role1) && CheckRole(doc, t, role2) ==> role1 == role2
  {
  }

  /** The roles whose repetition counts as parallelism: subject, accusative and dative object. */
  const ParallelRoles: set<string> := {"SB", "OA", "DA"}

  /**
    `check_parallelism`: both words fill the same one of the parallel roles.
   */
  function CheckParallelism(doc: Document, a: TokenId, b: TokenId): (r: bool)
    ensures r ==> CheckRole(doc, a, At(doc, b).deprel) && CheckRole(doc, b, At(doc, a).deprel)
    ensures r <==> exists role :: role in ParallelRoles && CheckRole(doc, a, role) && CheckRole(doc, b, role)
  {
    var role := At(doc, a).deprel;
    role in ParallelRoles && CheckRole(doc, b, role)
  }

  /**
    `get_chain_length`: the number of known mentions of the entity `t` belongs
    to; 0 for an id the registry does not know.
   */
  function ChainLength(st: State, t: TokenId): (n: nat)
    ensures t !in st.mentions ==> n == 0
    ensures Inv(st) && t in Chained(st.entities) ==>
      n >= 1 && exists k :: k in st.entities && t in st.entities[k] && n == |st.entities[k]|
  {
    if t in st.mentions then
      assert Inv(st) && t in Chained(st.entities) ==> t in st.entities[st.mentions[t]] by {
        if Inv(st) && t in Chained(st.entities) {
          ChainOfMention(st, t);
        }
      }
      |ChainOf(st.entities, st.mentions[t])|
    else 0
  }

  /** `get_depth`: the number of dependency edges from the word up to the root of its sentence. */
  function Depth(doc: Document, t: TokenId): (n: nat)
    ensures !ValidId(doc, t) || At(doc, t).head == 0 ==> n == 0
  {
    if 1 <= t.sent <= |doc| then
      var s := doc[t.sent - 1];
      |UpPath(s, t.word, |s|)|
    else 0
  }

  /**
    In a well-formed dependency tree a word is one edge deeper than its head,
    and following the path of that length ends at a word attached to the root.
   */
  lemma {:induction false} DepthOneBelowHead(doc: Document, t: TokenId)
    requires ValidId(doc, t) && IsTree(doc[t.sent - 1])
    requires At(doc, t).head != 0
    ensures ValidId(doc, Tid(t.sent, At(doc, t).head))
    ensures Depth(doc, t) == 1 + Depth(doc, Tid(t.sent, At(doc, t).head))
  {
    var s := doc[t.sent - 1];
    var h := At(doc, t).head;
    assert HeadOf(s, t.word) == h;
    assert Reaches(s, t.word, |s|);
    assert Reaches(s, h, |s| - 1);
    UpPathStable(s, h, |s| - 1, |s|);
  }

  /** In a well-formed tree the upward path of every word ends at a word attached to the root. */
  lemma DepthEndsAtRoot(doc: Document, t: TokenId)
    requires ValidId(doc, t) && IsTree(doc[t.sent - 1])
    ensures var s := doc[t.sent - 1]; var p := UpPath(s, t.word, |s|);
      Depth(doc, t) == |p| && (|p| == 0 || HeadOf(s, p[|p| - 1]) == 0)
  {
    var s := doc[t.sent - 1];
    UpPathEndsAtRoot(s, t.word, |s|);
  }
}
