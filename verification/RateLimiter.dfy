/** The TokenBucket and RateLimiter objects, and the independence of clients. */
module RateLimiters {
  import opened Types
  import opened TokenBuckets

  /** One request: the clock as the bucket would read it at creation, then at refill. */
  datatype Request = Request(client: string, created: real, now: real, cost: real)

  type Levels = map<string, Level>

  function LevelOf(levels: Levels, r: Request, p: Policy): Level {
    if r.client in levels then levels[r.client] else Level(p.capacity, r.created)
  }

  /** The limiter's buckets after one request. */
  function Serve(levels: Levels, r: Request, p: Policy): Levels {
    levels[r.client := Next(LevelOf(levels, r, p), Call(r.now, r.cost), p)]
  }

  function ServeAll(levels: Levels, rs: seq<Request>, p: Policy): Levels
    decreases |rs|
  {
    if rs == [] then levels else ServeAll(Serve(levels, rs[0], p), rs[1..], p)
  }

  function Answers(levels: Levels, rs: seq<Request>, p: Policy): (a: seq<bool>)
    ensures |a| == |rs|
    decreases |rs|
  {
    if rs == [] then []
    else
      [Admits(LevelOf(levels, rs[0], p), Call(rs[0].now, rs[0].cost), p)]
      + Answers(Serve(levels, rs[0], p), rs[1..], p)
  }

  /** One client's calls in a mixed stream. */
  function CallsOf(rs: seq<Request>, client: string): seq<Call> {
    if rs == [] then []
    else (if rs[0].client == client then [Call(rs[0].now, rs[0].cost)] else []) + CallsOf(rs[1..], client)
  }

  /** One client's answers in a mixed stream. */
  function AnswersTo(rs: seq<Request>, answers: seq<bool>, client: string): seq<bool>
    requires |rs| == |answers|
  {
    if rs == [] then []
    else (if rs[0].client == client then [answers[0]] else []) + AnswersTo(rs[1..], answers[1..], client)
  }

  /** Whatever other clients do, a client with a bucket is answered as if it were alone with it. */
  lemma {:induction false} ClientsAreIndependent(levels: Levels, rs: seq<Request>, p: Policy, client: string)
    requires client in levels
    ensures AnswersTo(rs, Answers(levels, rs, p), client) == Results(levels[client], CallsOf(rs, client), p)
    ensures client in ServeAll(levels, rs, p)
    ensures ServeAll(levels, rs, p)[client] == Run(levels[client], CallsOf(rs, client), p)
    decreases |rs|
  {
    if rs == [] {
    } else {
      var r := rs[0];
      ClientsAreIndependent(Serve(levels, r, p), rs[1..], p, client);
      var answers := Answers(levels, rs, p);
      assert answers[1..] == Answers(Serve(levels, r, p), rs[1..], p);
      if r.client == client {
        var call := Call(r.now, r.cost);
        assert CallsOf(rs, client) == [call] + CallsOf(rs[1..], client);
        assert CallsOf(rs, client)[1..] == CallsOf(rs[1..], client);
      } else {
        assert CallsOf(rs, client) == CallsOf(rs[1..], client);
      }
    }
  }

  /** When a client's bucket is created: at its first request. */
  function Opening(rs: seq<Request>, client: string): Option<real> {
    if rs == [] then None
    else if rs[0].client == client then Some(rs[0].created)
    else Opening(rs[1..], client)
  }

  /** A new client starts with a full bucket at its own first request, whoever came before. */
  lemma {:induction false} NewClientStartsFull(levels: Levels, rs: seq<Request>, p: Policy, client: string)
    requires client !in levels
    ensures Opening(rs, client).None? ==>
              client !in ServeAll(levels, rs, p) && AnswersTo(rs, Answers(levels, rs, p), client) == []
    ensures Opening(rs, client).Some? ==>
              var full := Level(p.capacity, Opening(rs, client).value);
              && AnswersTo(rs, Answers(levels, rs, p), client) == Results(full, CallsOf(rs, client), p)
              && client in ServeAll(levels, rs, p)
              && ServeAll(levels, rs, p)[client] == Run(full, CallsOf(rs, client), p)
    decreases |rs|
  {
    if rs == [] {
    } else {
      var r := rs[0];
      var answers := Answers(levels, rs, p);
      assert answers[1..] == Answers(Serve(levels, r, p), rs[1..], p);
      if r.client == client {
        ClientsAreIndependent(Serve(levels, r, p), rs[1..], p, client);
        var call := Call(r.now, r.cost);
        assert CallsOf(rs, client) == [call] + CallsOf(rs[1..], client);
        assert CallsOf(rs, client)[1..] == CallsOf(rs[1..], client);
      } else {
        NewClientStartsFull(Serve(levels, r, p), rs[1..], p, client);
        assert CallsOf(rs, client) == CallsOf(rs[1..], client);
        assert AnswersTo(rs, answers, client) == AnswersTo(rs[1..], answers[1..], client);
      }
    }
  }

  /** Whoever came before, a new client's requests are all admitted for as long as they cost no more than the capacity,
      taken together. */
  lemma NewClientBurst(levels: Levels, rs: seq<Request>, p: Policy, client: string)
    requires p.Sensible() && client !in levels
    requires Costs(CallsOf(rs, client)) && TotalCost(CallsOf(rs, client)) <= p.capacity
    ensures forall a :: a in AnswersTo(rs, Answers(levels, rs, p), client) ==> a
  {
    NewClientStartsFull(levels, rs, p, client);
    if Opening(rs, client).Some? {
      AffordableCallsAreAdmitted(Level(p.capacity, Opening(rs, client).value), CallsOf(rs, client), p);
    }
  }

  class TokenBucket {
    const policy: Policy
    var tokens: real
    var lastRefill: real

    function Level(): Level
      reads this
    {
      TokenBuckets.Level.Level(tokens, lastRefill)
    }

    constructor (policy: Policy, now: real)
      ensures this.policy == policy && Level() == TokenBuckets.Level.Level(policy.capacity, now)
    {
      this.policy := policy;
      tokens, lastRefill := policy.capacity, now;
    }

    method RefillTokens(now: real)
      modifies this
      ensures Level() == Refill(old(Level()), now, policy)
    {
      var elapsed := now - lastRefill;
      if elapsed <= 0.0 {
        return;
      }
      tokens := Min(policy.capacity, tokens + policy.Earned(elapsed));
      lastRefill := now;
    }

    method TryConsume(now: real, cost: real) returns (ok: bool)
      modifies this
      ensures ok == Admits(old(Level()), Call(now, cost), policy)
      ensures Level() == Next(old(Level()), Call(now, cost), policy)
    {
      RefillTokens(now);
      if tokens >= cost {
        tokens := tokens - cost;
        return true;
      }
      return false;
    }
  }

  class RateLimiter {
    const policy: Policy
    var buckets: map<string, TokenBucket>

    ghost predicate Valid()
      reads this, buckets.Values
    {
      && (forall k :: k in buckets ==> buckets[k].policy == policy)
      && (forall j, k :: j in buckets && k in buckets && j != k ==> buckets[j] != buckets[k])
    }

    ghost function View(): Levels
      reads this, buckets.Values
    {
      map k | k in buckets :: buckets[k].Level()
    }

    constructor (policy: Policy)
      ensures Valid() && this.policy == policy && View() == map[]
    {
      this.policy := policy;
      buckets := map[];
    }

    method BucketFor(client: string, now: real) returns (bucket: TokenBucket)
      requires Valid()
      modifies this
      ensures Valid() && client in buckets && bucket == buckets[client]
      ensures fresh(buckets.Values - old(buckets.Values))
      ensures View() == if client in old(buckets) then old(View())
                        else old(View())[client := Level(policy.capacity, now)]
    {
      if client in buckets {
        bucket := buckets[client];
      } else {
        bucket := new TokenBucket(policy, now);
        buckets := buckets[client := bucket];
      }
    }

    method Allow(r: Request) returns (ok: bool)
      requires Valid()
      modifies this, buckets.Values
      ensures Valid() && fresh(buckets.Values - old(buckets.Values))
      ensures ok == Admits(LevelOf(old(View()), r, policy), Call(r.now, r.cost), policy)
      ensures View() == Serve(old(View()), r, policy)
    {
      var bucket := BucketFor(r.client, r.created);
      assert bucket.Level() == View()[r.client];
      assert bucket.Level() == LevelOf(old(View()), r, policy);
      ok := bucket.TryConsume(r.now, r.cost);
    }

    method Size() returns (n: nat)
      ensures n == |buckets|
    {
      n := |buckets|;
    }
  }
}
