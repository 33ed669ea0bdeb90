/**
  The dependency-parsed document the resolver reads: sentences of token records.
  Sentence `s` (counted from 1) is `doc[s - 1]`; its word at position `w` (counted
  from 1) is `doc[s - 1][w - 1]`. Each token names its dependency head by word
  position in the same sentence, 0 standing for the sentence root.
 */
module Documents {
  import opened Common
  import opened Ids

  datatype Token = Token(
    form: string,
    baseForm: string,  // the lemma
    pos: string,
    deprel: string,
    head: nat,
    gender: Option<string>,
    person: Option<string>,
    number: Option<string>)

  type Sentence = seq<Token>

  type Document = seq<Sentence>

  /** What a lookup of an id outside the document yields (no attributes at all). */
  const Blank := Token("", "", "", "", 0, None, None, None)

  predicate ValidId(doc: Document, t: TokenId) {
    1 <= t.sent <= |doc| && 1 <= t.word <= |doc[t.sent - 1]|
  }

  /** The attribute record of a token node. */
  function At(doc: Document, t: TokenId): (tok: Token)
    ensures !ValidId(doc, t) ==> tok == Blank
  {
    if ValidId(doc, t) then doc[t.sent - 1][t.word - 1] else Blank
  }

  /** Number of tokens of sentence `sent` (0 for a sentence index outside the document). */
  function SentLength(doc: Document, sent: nat): nat {
    if 1 <= sent <= |doc| then |doc[sent - 1]| else 0
  }

  // ---------------------------------------------------------------------------
  // All token ids, in document order

  /** Ids of words 1..n of sentence `sent`. */
  function WordIds(sent: nat, n: nat): (r: seq<TokenId>)
    ensures |r| == n
    ensures forall i :: 0 <= i < n ==> r[i] == Tid(sent, i + 1)
  {
    if n == 0 then [] else WordIds(sent, n - 1) + [Tid(sent, n)]
  }

  /** Ids of all words of sentences 1..k. */
  function SentenceIds(doc: Document, k: nat): seq<TokenId>
    requires k <= |doc|
  {
    if k == 0 then [] else SentenceIds(doc, k - 1) + WordIds(k, |doc[k - 1]|)
  }

  /** Every token id of the document, sentence by sentence, word by word. */
  function AllIds(doc: Document): seq<TokenId> {
    SentenceIds(doc, |doc|)
  }

  /** The ids of one sentence are exactly its word positions 1..n. */
  lemma WordIdsMembers(sent: nat, n: nat)
    ensures forall t :: t in WordIds(sent, n) <==> t.sent == sent && 1 <= t.word <= n
  {
    var b := WordIds(sent, n);
    forall t | t in b ensures t.sent == sent && 1 <= t.word <= n {
      var i :| 0 <= i < |b| && b[i] == t;
    }
    forall t: TokenId | t.sent == sent && 1 <= t.word <= n ensures t in b {
      assert b[t.word - 1] == t;
    }
  }

  /** Two strictly increasing lists, the first wholly before the second, concatenate strictly increasing. */
  lemma StrictlySortedAppend(a: seq<TokenId>, b: seq<TokenId>)
    requires StrictlySorted(a) && StrictlySorted(b)
    requires forall x, y :: x in a && y in b ==> Before(x, y)
    ensures StrictlySorted(a + b)
  {
    var c := a + b;
    forall i, j | 0 <= i < j < |c| ensures Before(c[i], c[j]) {
      if j < |a| {
      } else if i < |a| {
        assert c[i] in a && c[j] == b[j - |a|];
      } else {
        assert c[i] == b[i - |a|] && c[j] == b[j - |a|];
      }
    }
  }

  /** The first k sentences contribute exactly their valid ids, strictly in document order. */
  lemma {:induction false} SentenceIdsSpec(doc: Document, k: nat)
    requires k <= |doc|
    ensures StrictlySorted(SentenceIds(doc, k))
    ensures forall t :: t in SentenceIds(doc, k) <==> ValidId(doc, t) && t.sent <= k
  {
    if k > 0 {
      SentenceIdsSpec(doc, k - 1);
      var a := SentenceIds(doc, k - 1);
      var b := WordIds(k, |doc[k - 1]|);
      WordIdsMembers(k, |doc[k - 1]|);
      StrictlySortedAppend(a, b);
    }
  }

  /** `AllIds` lists every token of the document once, in document order. */
  lemma AllIdsSpec(doc: Document)
    ensures StrictlySorted(AllIds(doc))
    ensures forall t :: t in AllIds(doc) <==> ValidId(doc, t)
  {
    SentenceIdsSpec(doc, |doc|);
  }

  // ---------------------------------------------------------------------------
  // Walking up the dependency tree

  /** The head position of word `w` of sentence `s` (0: the word hangs off the root or is absent). */
  function HeadOf(s: Sentence, w: nat): nat {
    if 1 <= w <= |s| && s[w - 1].head <= |s| then s[w - 1].head else 0
  }

  /**
    The positions of the words governing `w`, nearest first, following at most
    `fuel` edges; the root itself is not a word and does not appear.
   */
  function UpPath(s: Sentence, w: nat, fuel: nat): (p: seq<nat>)
    ensures |p| <= fuel
    ensures forall i :: 0 <= i < |p| ==> 1 <= p[i] <= |s|
    decreases fuel
  {
    var h := HeadOf(s, w);
    if h == 0 || fuel == 0 then [] else [h] + UpPath(s, h, fuel - 1)
  }

  /** Word `w` reaches the sentence root in at most `fuel` edges. */
  predicate Reaches(s: Sentence, w: nat, fuel: nat)
    decreases fuel
  {
    HeadOf(s, w) == 0 || (fuel > 0 && Reaches(s, HeadOf(s, w), fuel - 1))
  }

  /**
    The heads of a sentence form a tree: every head is a word of the sentence or
    the root, and every word reaches the root without revisiting a word.
   */
  predicate IsTree(s: Sentence) {
    (forall w :: 0 <= w < |s| ==> s[w].head <= |s|)
    && (forall w :: 1 <= w <= |s| ==> Reaches(s, w, |s|))
  }

  /** Once the root is in reach, more fuel does not lengthen the path. */
  lemma {:induction false} UpPathStable(s: Sentence, w: nat, f: nat, g: nat)
    requires Reaches(s, w, f) && f <= g
    ensures UpPath(s, w, g) == UpPath(s, w, f)
    decreases f
  {
    var h := HeadOf(s, w);
    if h != 0 {
      UpPathStable(s, h, f - 1, g - 1);
    }
  }

  /** Reaching the root within some fuel means the path ends at a word whose head is the root. */
  lemma {:induction false} UpPathEndsAtRoot(s: Sentence, w: nat, f: nat)
    requires Reaches(s, w, f)
    ensures var p := UpPath(s, w, f); |p| == 0 || HeadOf(s, p[|p| - 1]) == 0
    decreases f
  {
    var h := HeadOf(s, w);
    if h != 0 {
      UpPathEndsAtRoot(s, h, f - 1);
      var q := UpPath(s, h, f - 1);
      if |q| > 0 {
        assert UpPath(s, w, f)[|UpPath(s, w, f)| - 1] == q[|q| - 1];
      }
    }
  }
}
