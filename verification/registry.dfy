/**
  The candidate registry of a `Pocores` instance: which entities are known, which
  mentions belong to them, and which antecedent each pronoun was linked to.
 */
module Registry {
  import opened Common
  import opened Ids

  /**
    `entities` maps the first mention of an entity to all of its mentions, in the
    order they were resolved; `mentions` maps a mention to the first mention of
    its entity; `anaToAnte` records, for resolved pronouns, the antecedent chosen.
   */
  datatype State = State(
    entities: map<TokenId, seq<TokenId>>,
    mentions: map<TokenId, TokenId>,
    anaToAnte: map<TokenId, TokenId>)

  /** The state a fresh instance starts with. */
  const Initial := State(map[], map[], map[])

  /** The chain of entity `k`; `entities` is a `defaultdict(list)`, so an unknown key reads as `[]`. */
  function ChainOf(entities: map<TokenId, seq<TokenId>>, k: TokenId): seq<TokenId> {
    if k in entities then entities[k] else []
  }

  /** Every id that occurs in some chain. */
  function Chained(entities: map<TokenId, seq<TokenId>>): set<TokenId> {
    set k, x | k in entities && x in entities[k] :: x
  }

  /**
    The registry invariant: every chain starts with its own key and repeats no
    mention, and `mentions` maps every chained id back to the key of its chain.
   */
  predicate Inv(st: State) {
    && (forall k :: k in st.entities ==> |st.entities[k]| > 0 && st.entities[k][0] == k)
    && (forall k :: k in st.entities ==> NoDup(st.entities[k]))
    && (forall k, x :: k in st.entities && x in st.entities[k] ==> x in st.mentions && st.mentions[x] == k)
  }

  /** `mentions` knows exactly the chained ids (nothing left over from an earlier run). */
  predicate Exact(st: State) {
    st.mentions.Keys == Chained(st.entities)
  }

  /** Under the invariant the chains are pairwise disjoint: an id lies in exactly one chain. */
  lemma ChainsDisjoint(st: State, k1: TokenId, k2: TokenId, x: TokenId)
    requires Inv(st)
    requires k1 in st.entities && k2 in st.entities
    requires x in st.entities[k1] && x in st.entities[k2]
    ensures k1 == k2
  {
    assert st.mentions[x] == k1 && st.mentions[x] == k2;
  }

  /** Under the invariant every first mention is itself chained. */
  lemma KeysChained(st: State)
    requires Inv(st)
    ensures st.entities.Keys <= Chained(st.entities)
  {
    forall k | k in st.entities ensures k in Chained(st.entities) {
      assert st.entities[k][0] == k;
      assert k in st.entities[k];
    }
  }

  /** Under the invariant the chain an id belongs to is the one `mentions` names. */
  lemma ChainOfMention(st: State, x: TokenId)
    requires Inv(st) && x in Chained(st.entities)
    ensures x in st.mentions && st.mentions[x] in st.entities
    ensures x in st.entities[st.mentions[x]]
  {
    var k :| k in st.entities && x in st.entities[k];
  }

  // ---------------------------------------------------------------------------
  // Listing the candidates

  /** Some element of a finite set of ids comes no later than all the others. */
  lemma {:induction false} LeastExists(s: set<TokenId>)
    requires s != {}
    ensures exists m :: m in s && forall y :: y in s ==> NotAfter(m, y)
    decreases |s|
  {
    var x :| x in s;
    if s != {x} {
      var rest := s - {x};
      LeastExists(rest);
      var m :| m in rest && forall y :: y in rest ==> NotAfter(m, y);
      var least := if Before(x, m) then x else m;
      forall y | y in s ensures NotAfter(least, y) {
        if y != x {
          assert y in rest;
        }
      }
    } else {
      assert forall y :: y in s ==> y == x;
    }
  }

  /** The earliest id of a nonempty set. */
  function Least(s: set<TokenId>): (m: TokenId)
    requires s != {}
    ensures m in s && forall y :: y in s ==> NotAfter(m, y)
  {
    LeastExists(s);
    var m :| m in s && forall y :: y in s ==> NotAfter(m, y);
    m
  }

  /**
    All chains one after another (`candidates += self.entities[...]` for every key).
    The keys are visited earliest first; the order is immaterial to the caller,
    which sorts the result.
   */
  function Concat(entities: map<TokenId, seq<TokenId>>): seq<TokenId>
    decreases |entities|
  {
    if |entities| == 0 then []
    else
      var k := Least(entities.Keys);
      entities[k] + Concat(entities - {k})
  }

  /** The concatenation holds exactly the chained ids. */
  lemma {:induction false} ConcatMembers(entities: map<TokenId, seq<TokenId>>)
    ensures forall x :: x in Concat(entities) <==> x in Chained(entities)
    decreases |entities|
  {
    if |entities| > 0 {
      var k := Least(entities.Keys);
      var rest := entities - {k};
      ConcatMembers(rest);
      assert Concat(entities) == entities[k] + Concat(rest);
      forall x ensures x in Concat(entities) <==> x in Chained(entities) {
        if x in Chained(entities) {
          var j :| j in entities && x in entities[j];
          if j != k {
            assert j in rest && x in rest[j];
            assert x in Chained(rest);
          }
        }
        if x in Chained(rest) {
          var j :| j in rest && x in rest[j];
          assert x in entities[j];
        }
      }
    }
  }

  /** Chains without repeats that pairwise share nothing concatenate without repeats. */
  lemma {:induction false} ConcatNoDup(entities: map<TokenId, seq<TokenId>>)
    requires forall k :: k in entities ==> NoDup(entities[k])
    requires forall k1, k2, x :: k1 in entities && k2 in entities && x in entities[k1] && x in entities[k2] ==> k1 == k2
    ensures NoDup(Concat(entities))
    decreases |entities|
  {
    if |entities| > 0 {
      var k := Least(entities.Keys);
      var rest := entities - {k};
      ConcatNoDup(rest);
      ConcatMembers(rest);
      var a := entities[k];
      var b := Concat(rest);
      assert forall x :: x in b ==> x !in a by {
        forall x | x in b ensures x !in a {
          var j :| j in rest && x in rest[j];
        }
      }
      var c := a + b;
      forall i, j | 0 <= i < j < |c| ensures c[i] != c[j] {
        if j < |a| {
        } else if i < |a| {
          assert c[i] in a && c[j] == b[j - |a|];
        } else {
          assert c[i] == b[i - |a|] && c[j] == b[j - |a|];
        }
      }
    }
  }

  /**
    `_get_candidates`: every mention of every entity, in document order. The
    result is a rearrangement of the concatenated chains.
   */
  function Candidates(st: State): (r: seq<TokenId>)
    ensures Sorted(r)
    ensures multiset(r) == multiset(Concat(st.entities))
    ensures forall x :: x in r <==> x in Chained(st.entities)
  {
    var all := Concat(st.entities);
    ConcatMembers(st.entities);
    var r := Sort(all);
    assert forall x :: x in r <==> x in multiset(r);
    assert forall x :: x in all <==> x in multiset(all);
    r
  }

  /** Without entities there are no candidates. */
  lemma CandidatesNone(st: State)
    requires st.entities == map[]
    ensures Candidates(st) == []
  {
    assert Chained(st.entities) == {};
  }

  /** With a single one-mention entity, that mention is the only candidate. */
  lemma CandidatesOneEntity(st: State, k: TokenId)
    requires st.entities == map[k := [k]]
    ensures Candidates(st) == [k]
  {
    assert Least(st.entities.Keys) == k;
    assert st.entities - {k} == map[];
    assert Concat(st.entities) == [k];
    var c := Candidates(st);
    assert multiset(c) == multiset{k};
    assert |c| == 1;
    assert c[0] in multiset(c);
  }

  /** Under the invariant no candidate is listed twice, so the list is strictly increasing. */
  lemma CandidatesStrictlySorted(st: State)
    requires Inv(st)
    ensures StrictlySorted(Candidates(st))
  {
    forall k1, k2, x | k1 in st.entities && k2 in st.entities && x in st.entities[k1] && x in st.entities[k2]
      ensures k1 == k2
    {
      ChainsDisjoint(st, k1, k2, x);
    }
    ConcatNoDup(st.entities);
    NoDupPermutation(Concat(st.entities), Candidates(st));
    SortedNoDupIsStrict(Candidates(st));
  }

  // ---------------------------------------------------------------------------
  // Registering mentions

  /** `entities[t] = [t]; mentions[t] = t`: `t` starts a new entity of its own. */
  function NewEntity(st: State, t: TokenId): (r: State)
    ensures ChainOf(r.entities, t) == [t]
    ensures t in r.mentions && r.mentions[t] == t
    ensures forall k :: k != t ==> ChainOf(r.entities, k) == ChainOf(st.entities, k)
    ensures forall x :: x != t ==> (x in r.mentions <==> x in st.mentions)
    ensures forall x :: x != t && x in st.mentions ==> r.mentions[x] == st.mentions[x]
    ensures r.anaToAnte == st.anaToAnte
    ensures Inv(st) && t !in Chained(st.entities) ==> Inv(r) && Chained(r.entities) == Chained(st.entities) + {t}
    ensures Inv(st) && Exact(st) && t !in Chained(st.entities) ==> Exact(r)
  {
    var r := State(st.entities[t := [t]], st.mentions[t := t], st.anaToAnte);
    assert Inv(st) && t !in Chained(st.entities) ==>
      Inv(r) && Chained(r.entities) == Chained(st.entities) + {t} by {
      if Inv(st) && t !in Chained(st.entities) {
        NewEntityChained(st, t, r);
      }
    }
    r
  }

  lemma NewEntityChained(st: State, t: TokenId, r: State)
    requires r == State(st.entities[t := [t]], st.mentions[t := t], st.anaToAnte)
    requires Inv(st) && t !in Chained(st.entities)
    ensures Inv(r)
    ensures Chained(r.entities) == Chained(st.entities) + {t}
  {
    KeysChained(st);
    NewEntityInv(st, t, r);
    NewEntityChainedSet(st, t, r);
  }

  lemma NewEntityInv(st: State, t: TokenId, r: State)
    requires r == State(st.entities[t := [t]], st.mentions[t := t], st.anaToAnte)
    requires Inv(st) && t !in Chained(st.entities) && t !in st.entities
    ensures Inv(r)
  {
    forall k | k in r.entities ensures |r.entities[k]| > 0 && r.entities[k][0] == k && NoDup(r.entities[k]) {
      if k != t {
        assert r.entities[k] == st.entities[k];
      }
    }
    forall k, x | k in r.entities && x in r.entities[k] ensures x in r.mentions && r.mentions[x] == k {
      if k != t {
        assert x in st.entities[k];
        assert x != t;
      }
    }
  }

  lemma NewEntityChainedSet(st: State, t: TokenId, r: State)
    requires r.entities == st.entities[t := [t]]
    requires t !in st.entities
    ensures Chained(r.entities) == Chained(st.entities) + {t}
  {
    forall x | x in Chained(r.entities) ensures x in Chained(st.entities) + {t} {
      var k :| k in r.entities && x in r.entities[k];
    }
    forall x | x in Chained(st.entities) ensures x in Chained(r.entities) {
      var k :| k in st.entities && x in st.entities[k];
      assert k != t && x in r.entities[k];
    }
    assert t in r.entities[t];
  }

  /**
    `first = mentions[antecedent]; entities[first].append(m); mentions[m] = first`:
    `m` joins the entity of `antecedent`, at the end of its chain.
   */
  function AttachMention(st: State, m: TokenId, antecedent: TokenId): (r: State)
    requires antecedent in st.mentions
    ensures var first := st.mentions[antecedent];
      && ChainOf(r.entities, first) == ChainOf(st.entities, first) + [m]
      && (forall k :: k != first ==> ChainOf(r.entities, k) == ChainOf(st.entities, k))
      && m in r.mentions && r.mentions[m] == first
    ensures forall x :: x != m ==> (x in r.mentions <==> x in st.mentions)
    ensures forall x :: x != m && x in st.mentions ==> r.mentions[x] == st.mentions[x]
    ensures r.anaToAnte == st.anaToAnte
    ensures Inv(st) && m !in Chained(st.entities) && antecedent in Chained(st.entities) ==>
      Inv(r) && Chained(r.entities) == Chained(st.entities) + {m}
    ensures Inv(st) && Exact(st) && m !in Chained(st.entities) && antecedent in Chained(st.entities) ==>
      Exact(r)
  {
    var first := st.mentions[antecedent];
    var r := State(st.entities[first := ChainOf(st.entities, first) + [m]], st.mentions[m := first], st.anaToAnte);
    assert Inv(st) && m !in Chained(st.entities) && antecedent in Chained(st.entities) ==>
      Inv(r) && Chained(r.entities) == Chained(st.entities) + {m} by {
      if Inv(st) && m !in Chained(st.entities) && antecedent in Chained(st.entities) {
        ChainOfMention(st, antecedent);
        AttachInv(st, m, first, r);
        AttachChainedSet(st, m, first, r);
      }
    }
    r
  }

  lemma AttachInv(st: State, m: TokenId, first: TokenId, r: State)
    requires Inv(st) && m !in Chained(st.entities) && first in st.entities
    requires r == State(st.entities[first := st.entities[first] + [m]], st.mentions[m := first], st.anaToAnte)
    ensures Inv(r)
  {
    var prior := st.entities[first];
    var chain := prior + [m];
    assert r.entities[first] == chain;
    assert m !in prior;
    assert NoDup(chain);
    forall k, x | k in r.entities && x in r.entities[k]
      ensures x in r.mentions && r.mentions[x] == k
    {
      if k == first && x == m {
      } else if k == first {
        assert x in prior;
      } else {
        assert x in st.entities[k];
      }
    }
  }

  lemma AttachChainedSet(st: State, m: TokenId, first: TokenId, r: State)
    requires first in st.entities
    requires r.entities == st.entities[first := st.entities[first] + [m]]
    ensures Chained(r.entities) == Chained(st.entities) + {m}
  {
    var prior := st.entities[first];
    var chain := prior + [m];
    assert r.entities[first] == chain;
    forall x | x in Chained(r.entities) ensures x in Chained(st.entities) + {m} {
      var k :| k in r.entities && x in r.entities[k];
      if k == first && x != m {
        assert x in prior;
      }
    }
    forall x | x in Chained(st.entities) ensures x in Chained(r.entities) {
      var k :| k in st.entities && x in st.entities[k];
      if k == first {
        assert x in chain;
      } else {
        assert x in r.entities[k];
      }
      assert x in r.entities[k];
    }
    assert m in r.entities[first];
  }
}
