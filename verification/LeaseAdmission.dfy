/** Bounded admission: a semaphore and the permits taken from it
    (src/ojs/worker/lease_admission.py). */
module LeaseAdmission {

  /** A uuid; that two are never equal is taken from `minted` only growing. */
  type Token = nat

  datatype Pool = Pool(capacity: nat, semaphore: int, permits: set<Token>, minted: nat)

  function Empty(capacity: nat, minted: nat): Pool {
    Pool(capacity, capacity, {}, minted)
  }

  function Available(p: Pool): int {
    p.capacity - |p.permits|
  }

  /** One turn of the reservation loop; acquiring waits unless the semaphore has room. */
  function Take(p: Pool): Pool
    requires p.semaphore > 0
  {
    p.(semaphore := p.semaphore - 1, permits := p.permits + {p.minted}, minted := p.minted + 1)
  }

  function Reserve(p: Pool, n: nat): (r: Pool)
    requires n <= p.semaphore
    ensures r.semaphore == p.semaphore - n && r.minted == p.minted + n
  {
    if n == 0 then p else Take(Reserve(p, n - 1))
  }

  function Release(p: Pool, token: Token): Pool {
    if token in p.permits
    then p.(permits := p.permits - {token}, semaphore := p.semaphore + 1) else p
  }

  function ReleaseAll(p: Pool, tokens: seq<Token>): Pool
    decreases |tokens|
  {
    if tokens == [] then p else ReleaseAll(Release(p, tokens[0]), tokens[1..])
  }

  function Tokens(first: nat, n: nat): (r: seq<Token>)
    ensures |r| == n && forall i | 0 <= i < n :: r[i] == first + i
  {
    seq(n, i => first + i)
  }

  function Elements(tokens: seq<Token>): set<Token> {
    set t | t in tokens
  }

  predicate Distinct(tokens: seq<Token>) {
    forall i, j | 0 <= i < j < |tokens| :: tokens[i] != tokens[j]
  }

  /** No permit is lost or invented: free plus taken is the capacity. */
  predicate Conserved(p: Pool) {
    && p.semaphore >= 0
    && p.semaphore + |p.permits| == p.capacity
    && forall t | t in p.permits :: t < p.minted
  }

  lemma TokensGrow(first: nat, n: nat)
    ensures Tokens(first, n + 1) == Tokens(first, n) + [first + n]
    ensures Elements(Tokens(first, n + 1)) == Elements(Tokens(first, n)) + {first + n}
  {
    assert Tokens(first, n + 1) == Tokens(first, n) + [first + n];
  }

  lemma TakeConserves(p: Pool)
    requires Conserved(p) && p.semaphore > 0
    ensures Conserved(Take(p))
  {
    assert p.minted !in p.permits;
  }

  lemma {:induction false} ReservePermits(p: Pool, n: nat)
    requires n <= p.semaphore
    ensures Reserve(p, n).capacity == p.capacity
    ensures Reserve(p, n).permits == p.permits + Elements(Tokens(p.minted, n))
  {
    if n == 0 {
      assert Elements(Tokens(p.minted, 0)) == {};
    } else {
      ReservePermits(p, n - 1);
      TokensGrow(p.minted, n - 1);
      var before := Elements(Tokens(p.minted, n - 1));
      assert p.permits + before + {p.minted + n - 1} == p.permits + (before + {p.minted + n - 1});
    }
  }

  lemma {:induction false} ReserveKeeps(p: Pool, n: nat)
    requires Conserved(p) && n <= p.semaphore
    ensures Conserved(Reserve(p, n))
  {
    if n > 0 {
      ReserveKeeps(p, n - 1);
      TakeConserves(Reserve(p, n - 1));
    }
  }

  lemma ReserveConserves(p: Pool, n: nat)
    requires Conserved(p) && n <= p.semaphore
    ensures Conserved(Reserve(p, n))
    ensures Reserve(p, n).capacity == p.capacity
    ensures Reserve(p, n).permits == p.permits + Elements(Tokens(p.minted, n))
  {
    ReserveKeeps(p, n);
    ReservePermits(p, n);
  }

  /** After reserving everything available nothing is left and nothing was lost. */
  lemma ReserveAllConserves(p: Pool)
    requires Conserved(p)
    ensures Available(p) == p.semaphore
    ensures Conserved(Reserve(p, p.semaphore)) && Available(Reserve(p, p.semaphore)) == 0
    ensures Elements(Tokens(p.minted, p.semaphore)) !! p.permits
  {
    ReserveConserves(p, p.semaphore);
  }

  lemma {:induction false} ReleaseAllConserves(p: Pool, tokens: seq<Token>)
    requires Conserved(p) && Distinct(tokens) && Elements(tokens) <= p.permits
    ensures Conserved(ReleaseAll(p, tokens))
    decreases |tokens|
    ensures ReleaseAll(p, tokens) == p.(semaphore := p.semaphore + |tokens|, permits := p.permits - Elements(tokens))
  {
    if tokens == [] {
      assert p.permits - Elements(tokens) == p.permits;
    } else {
      var rest := tokens[1..];
      assert tokens == [tokens[0]] + rest;
      assert Elements(tokens) == {tokens[0]} + Elements(rest);
      assert tokens[0] in p.permits;
      assert tokens[0] !in rest;
      ReleaseAllConserves(Release(p, tokens[0]), rest);
      assert p.permits - {tokens[0]} - Elements(rest) == p.permits - Elements(tokens);
    }
  }

  class Admission {
    const capacity: nat
    var semaphore: int
    var permits: map<Token, Token>
    var minted: nat

    ghost function View(): Pool
      reads this
    {
      Pool(capacity, semaphore, permits.Keys, minted)
    }

    ghost predicate Valid()
      reads this
    {
      Conserved(View())
    }

    constructor (capacity: nat)
      requires capacity >= 1
      ensures Valid() && View() == Empty(capacity, 0)
    {
      this.capacity := capacity;
      semaphore := capacity;
      permits := map[];
      minted := 0;
    }

    /** asyncio's acquire, in the case where it does not wait. */
    method Acquire()
      requires semaphore > 0
      modifies this`semaphore
      ensures semaphore == old(semaphore) - 1
    {
      semaphore := semaphore - 1;
    }

    /** One turn of the loop: a permit is taken and recorded under a new token. */
    method Mint()
      requires semaphore > 0
      modifies this
      ensures View() == Take(old(View()))
    {
      Acquire();
      permits := permits[minted := minted];
      minted := minted + 1;
    }

    method MintMany(n: nat) returns (reserved: seq<Token>)
      requires n <= semaphore
      modifies this
      ensures View() == Reserve(old(View()), n) && reserved == Tokens(old(minted), n)
    {
      reserved := [];
      for i := 0 to n
        invariant reserved == Tokens(old(minted), i)
        invariant View() == Reserve(old(View()), i)
      {
        reserved := reserved + [minted];
        TokensGrow(old(minted), i);
        Mint();
      }
    }

    /** Reserves everything available, without ever waiting on the semaphore. */
    method ReserveAvailable() returns (reserved: seq<Token>)
      requires Valid()
      modifies this
      ensures Available(old(View())) == old(semaphore) >= 0
      ensures View() == Reserve(old(View()), old(semaphore))
      ensures reserved == Tokens(old(minted), old(semaphore))
      ensures Valid() && Available(View()) == 0
    {
      ReserveAllConserves(View());
      reserved := MintMany(capacity - |permits.Keys|);
    }

    /** Releases a permit once; a second release changes nothing and returns false. */
    method Free(token: Token) returns (released: bool)
      requires Valid()
      modifies this
      ensures Valid() && View() == Release(old(View()), token)
      ensures released == (token in old(permits)) && permits == old(permits) - {token}
      ensures semaphore <= capacity
    {
      released := token in permits;
      if released {
        permits := permits - {token};
        assert View().permits == old(View()).permits - {token};
        semaphore := semaphore + 1;
      } else {
        assert permits - {token} == permits;
      }
    }
  }
}
