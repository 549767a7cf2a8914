/**
The two LRU caches of the inference coordinator: the model pool and the prompt cache behind `generate`.
*/
module InferenceCache {
  import opened Common
  import L = Lru

  const PROMPT_CACHE_SIZE: nat := 32

  /**
  Models by key, at most `maxSize` of them. (With `maxSize` 0 the eviction loop of the original would not end,
  so the pool asks for at least 1.)
  */
  class ModelPool<V> {
    const maxSize: nat
    var keys: seq<string>
    var vals: map<string, V>
    var evictionCount: nat
    var hits: nat
    var misses: nat

    ghost function Abs(): L.Cache<string, V>
      reads this
    {
      L.Cache(keys, vals)
    }

    ghost predicate Valid()
      reads this
    {
      maxSize >= 1 && L.Valid(Abs()) && |keys| <= maxSize
    }

    constructor (maxSize: nat)
      requires maxSize >= 1
      ensures Valid() && this.maxSize == maxSize && Abs() == L.Cache([], map[])
      ensures evictionCount == hits == misses == 0
    {
      this.maxSize := maxSize;
      keys, vals := [], map[];
      evictionCount, hits, misses := 0, 0, 0;
    }

    method Get(key: string) returns (r: Option<V>)
      requires Valid()
      modifies this
      ensures Valid() && Abs() == L.Apply(maxSize, old(Abs()), L.Get(key))
      ensures r == if key in old(vals) then Some(old(vals)[key]) else None
      ensures evictionCount == old(evictionCount)
      ensures hits == old(hits) + (if r.Some? then 1 else 0) && misses == old(misses) + (if r.None? then 1 else 0)
    {
      L.ApplyKeepsValid(maxSize, Abs(), L.Get(key));
      if key !in vals {
        misses := misses + 1;
        return None;
      }
      keys := L.Touch(keys, key);
      hits := hits + 1;
      return Some(vals[key]);
    }

    /** Add or update a model; true for a new entry. */
    method Put(key: string, value: V) returns (isNew: bool)
      requires Valid()
      modifies this
      ensures Valid() && Abs() == L.Apply(maxSize, old(Abs()), L.Put(key, value))
      ensures isNew <==> key !in old(vals)
      ensures evictionCount - old(evictionCount) == old(|keys|) + (if isNew then 1 else 0) - |keys|
      ensures hits == old(hits) && misses == old(misses)
    {
      L.ApplyKeepsValid(maxSize, Abs(), L.Put(key, value));
      if key in vals {
        L.TouchLength(keys, key);
        keys := L.Touch(keys, key);
        vals := vals[key := value];
        return false;
      }
      MakeRoom();
      keys, vals := keys + [key], vals[key := value];
      return true;
    }

    /** Evict the oldest entries until there is room for one more. */
    method MakeRoom()
      requires Valid()
      modifies this`keys, this`vals, this`evictionCount
      ensures keys == L.Room(old(keys), maxSize) && vals == L.Restricted(old(vals), keys)
      ensures evictionCount == old(evictionCount) + |old(keys)| - |keys|
    {
      ghost var d := 0;
      assert keys == old(keys)[0..] && vals == L.Restricted(old(vals), keys);
      while |keys| >= maxSize
        invariant d <= |old(keys)| && keys == old(keys)[d..] && vals == L.Restricted(old(vals), keys)
        invariant evictionCount == old(evictionCount) + d && (d > 0 ==> |keys| >= maxSize - 1)
        decreases |keys|
      {
        RestrictedTail(old(vals), keys);
        EvictLru();
        d := d + 1;
      }
    }

    method EvictLru()
      requires keys != [] && Distinct(keys) && keys[0] in vals
      modifies this`keys, this`vals, this`evictionCount
      ensures keys == old(keys)[1..] && vals == old(vals) - {old(keys)[0]}
      ensures evictionCount == old(evictionCount) + 1
    {
      var key := keys[0];
      keys, vals := keys[1..], vals - {key};
      evictionCount := evictionCount + 1;
    }

    method Clear() returns (count: nat)
      requires Valid()
      modifies this
      ensures Valid() && Abs() == L.Apply(maxSize, old(Abs()), L.Clear) && count == |old(keys)|
      ensures hits == old(hits) && misses == old(misses) && evictionCount == old(evictionCount)
    {
      count := |keys|;
      keys, vals := [], map[];
    }
  }

  lemma RestrictedTail<V>(m: map<string, V>, keys: seq<string>)
    requires keys != [] && Distinct(keys)
    ensures L.Restricted(m, keys) - {keys[0]} == L.Restricted(m, keys[1..])
  {
    assert keys == [keys[0]] + keys[1..];
  }

  // ---------------------------------------------------------------- the prompt cache

  /** Logits processors are objects; each is represented by its identity. */
  type Processor = nat

  datatype Request = Request(
    prompt: string, temperature: real, maxTokens: int, thinking: bool,
    systemMsg: Option<string>, adapterPath: Option<string>, backend: Option<string>,
    logitsProcessors: Option<seq<Processor>>, promptTokens: Option<seq<int>>)

  /** The fields that enter the cache key. */
  datatype Signature = Signature(prompt: string, temperature: real, maxTokens: int, thinking: bool)

  function SignatureOf(r: Request): Signature {
    Signature(r.prompt, r.temperature, r.maxTokens, r.thinking)
  }

  type Answer<R, E> = Request -> Result<R, E>

  class InferenceCoordinator<R, E> {
    const fingerprint: Signature -> string
    const answer: Answer<R, E>
    var keys: seq<string>
    var vals: map<string, R>

    ghost function Abs(): L.Cache<string, R>
      reads this
    {
      L.Cache(keys, vals)
    }

    ghost predicate Valid()
      reads this
    {
      L.Valid(Abs()) && |keys| <= PROMPT_CACHE_SIZE
    }

    constructor (fingerprint: Signature -> string, answer: Answer<R, E>)
      ensures Valid() && Abs() == L.Cache([], map[]) && this.fingerprint == fingerprint && this.answer == answer
    {
      this.fingerprint, this.answer := fingerprint, answer;
      keys, vals := [], map[];
    }

    method CacheGet(key: string) returns (r: Option<R>)
      requires Valid()
      modifies this
      ensures Valid() && Abs() == L.Apply(PROMPT_CACHE_SIZE, old(Abs()), L.Get(key))
      ensures r == if key in old(vals) then Some(old(vals)[key]) else None
    {
      L.ApplyKeepsValid(PROMPT_CACHE_SIZE, Abs(), L.Get(key));
      if key !in vals {
        return None;
      }
      keys := L.Touch(keys, key);
      return Some(vals[key]);
    }

    method CachePut(key: string, response: R)
      requires Valid()
      modifies this
      ensures Valid() && Abs() == L.Apply(PROMPT_CACHE_SIZE, old(Abs()), L.Put(key, response))
    {
      L.ApplyKeepsValid(PROMPT_CACHE_SIZE, Abs(), L.Put(key, response));
      if key in vals {
        keys := L.Touch(keys, key);
        vals := vals[key := response];
      } else {
        if |keys| >= PROMPT_CACHE_SIZE {
          keys, vals := keys[1..], vals - {keys[0]};
        }
        assert keys == L.Room(old(keys), PROMPT_CACHE_SIZE);
        assert vals == L.Restricted(old(vals), keys);
        keys, vals := keys + [key], vals[key := response];
      }
    }

    /** A hit returns the stored response; a miss asks the backend and stores a successful answer. */
    method Generate(request: Request) returns (r: Result<R, E>)
      requires Valid()
      modifies this
      ensures Valid()
      ensures r == if fingerprint(SignatureOf(request)) in old(vals)
                   then Ok(old(vals)[fingerprint(SignatureOf(request))])
                   else answer(request)
      ensures Abs() == if r.Err? then old(Abs())
                       else if fingerprint(SignatureOf(request)) in old(vals)
                       then L.Apply(PROMPT_CACHE_SIZE, old(Abs()), L.Get(fingerprint(SignatureOf(request))))
                       else L.Apply(PROMPT_CACHE_SIZE, old(Abs()), L.Put(fingerprint(SignatureOf(request)), r.value))
    {
      var key := fingerprint(SignatureOf(request));
      var cached := CacheGet(key);
      if cached.Some? {
        return Ok(cached.value);
      }
      r := answer(request);
      if r.Ok? {
        CachePut(key, r.value);
      }
    }
  }

  /**
  What any interleaving of `generate` calls does to the cache: lookups, and stores of a backend's successful
  answer to some request under that request's key.
  */
  ghost predicate FromGenerate<R, E>(
      fingerprint: Signature -> string, answer: Answer<R, E>, ops: seq<L.Op<string, R>>)
  {
    forall i :: 0 <= i < |ops| && ops[i].Put? ==> StoresAnswer(fingerprint, answer, ops[i])
  }

  ghost predicate StoresAnswer<R, E>(fingerprint: Signature -> string, answer: Answer<R, E>, op: L.Op<string, R>)
    requires op.Put?
  {
    exists r :: fingerprint(SignatureOf(r)) == op.key && answer(r) == Ok(op.value)
  }

  /** A hit gives what the backend would have answered. */
  ghost predicate Transparent<R, E>(fingerprint: Signature -> string, answer: Answer<R, E>, ops: seq<L.Op<string, R>>) {
    forall r :: var key, c := fingerprint(SignatureOf(r)), L.Run(PROMPT_CACHE_SIZE, ops);
      key in c.vals ==> answer(r) == Ok(c.vals[key])
  }

  /** Requests with the same key as an answered one get the same answer. */
  ghost predicate KeyDecides<R, E>(fingerprint: Signature -> string, answer: Answer<R, E>) {
    forall r, r' :: fingerprint(SignatureOf(r)) == fingerprint(SignatureOf(r')) && answer(r).Ok? ==>
      answer(r') == answer(r)
  }

  lemma {:induction false} StoredIsAnAnswer<R, E>(
      fingerprint: Signature -> string, answer: Answer<R, E>, ops: seq<L.Op<string, R>>, key: string)
    returns (r: Request)
    requires FromGenerate(fingerprint, answer, ops) && key in L.Run(PROMPT_CACHE_SIZE, ops).vals
    ensures fingerprint(SignatureOf(r)) == key && answer(r) == Ok(L.Run(PROMPT_CACHE_SIZE, ops).vals[key])
  {
    var before, op := ops[..|ops| - 1], ops[|ops| - 1];
    if op.Put? && op.key == key {
      assert StoresAnswer(fingerprint, answer, op);
      r :| fingerprint(SignatureOf(r)) == op.key && answer(r) == Ok(op.value);
    } else {
      assert forall i :: 0 <= i < |before| ==> before[i] == ops[i];
      r := StoredIsAnAnswer(fingerprint, answer, before, key);
    }
  }

  /**
  The prompt cache is invisible, in every interleaving of `generate` calls, if and only if the key decides the
  answer.
  */
  lemma TransparentIffKeyDecides<R, E>(fingerprint: Signature -> string, answer: Answer<R, E>)
    ensures (forall ops :: FromGenerate(fingerprint, answer, ops) ==> Transparent(fingerprint, answer, ops))
       <==> KeyDecides(fingerprint, answer)
  {
    if KeyDecides(fingerprint, answer) {
      forall ops | FromGenerate(fingerprint, answer, ops)
        ensures Transparent(fingerprint, answer, ops)
      {
        forall r | fingerprint(SignatureOf(r)) in L.Run(PROMPT_CACHE_SIZE, ops).vals
          ensures answer(r) == Ok(L.Run(PROMPT_CACHE_SIZE, ops).vals[fingerprint(SignatureOf(r))])
        {
          var r' := StoredIsAnAnswer(fingerprint, answer, ops, fingerprint(SignatureOf(r)));
        }
      }
    } else {
      var r, r' :| && fingerprint(SignatureOf(r)) == fingerprint(SignatureOf(r'))
                   && answer(r).Ok? && answer(r') != answer(r);
      var ops := [L.Put(fingerprint(SignatureOf(r)), answer(r).value)];
      assert ops[..0] == [];
      assert StoresAnswer(fingerprint, answer, ops[0]);
      assert L.Run(PROMPT_CACHE_SIZE, ops).vals[fingerprint(SignatureOf(r'))] == answer(r).value;
      assert !Transparent(fingerprint, answer, ops);
    }
  }

  /**
  The fields outside the key count: with any fingerprint, a backend whose successful answer changes with the
  system message, the adapter, the backend name, the logits processors or the prompt tokens alone is not served
  transparently: a constrained request can be given an unconstrained answer.
  */
  lemma UnkeyedFieldsBreakTransparency<R, E>(
      fingerprint: Signature -> string, answer: Answer<R, E>, r: Request, r': Request)
    requires r' == r.(systemMsg := r'.systemMsg, adapterPath := r'.adapterPath, backend := r'.backend,
                      logitsProcessors := r'.logitsProcessors, promptTokens := r'.promptTokens)
    requires answer(r).Ok? && answer(r') != answer(r)
    ensures exists ops :: FromGenerate(fingerprint, answer, ops) && !Transparent(fingerprint, answer, ops)
  {
    assert SignatureOf(r) == SignatureOf(r');
    TransparentIffKeyDecides(fingerprint, answer);
    assert !KeyDecides(fingerprint, answer);
  }

  // ---------------------------------------------------------------- what the key holds

  /** The two requests agree on prompt, temperature, token limit and thinking. */
  ghost predicate SameQuestion(r: Request, r': Request) {
    r.prompt == r'.prompt && r.temperature == r'.temperature && r.maxTokens == r'.maxTokens && r.thinking == r'.thinking
  }

  ghost predicate Injective(fingerprint: Signature -> string) {
    forall a, b :: fingerprint(a) == fingerprint(b) ==> a == b
  }

  /** Two requests share a key exactly when they agree on those four. */
  lemma KeyIsTheQuestion(fingerprint: Signature -> string, r: Request, r': Request)
    requires Injective(fingerprint)
    ensures fingerprint(SignatureOf(r)) == fingerprint(SignatureOf(r')) <==> SameQuestion(r, r')
  {
  }

  /** What a run leaves under a request's key answers a request with the same four fields. */
  lemma StoredAnswersTheQuestion<R, E>(
      fingerprint: Signature -> string, answer: Answer<R, E>, ops: seq<L.Op<string, R>>, r: Request)
    returns (asked: Request)
    requires Injective(fingerprint) && FromGenerate(fingerprint, answer, ops)
    requires fingerprint(SignatureOf(r)) in L.Run(PROMPT_CACHE_SIZE, ops).vals
    ensures SameQuestion(asked, r)
    ensures answer(asked) == Ok(L.Run(PROMPT_CACHE_SIZE, ops).vals[fingerprint(SignatureOf(r))])
  {
    asked := StoredIsAnAnswer(fingerprint, answer, ops, fingerprint(SignatureOf(r)));
    KeyIsTheQuestion(fingerprint, asked, r);
  }

  /** A successful answer depends on the four fields of the question alone. */
  ghost predicate QuestionDecides<R, E>(answer: Answer<R, E>) {
    forall r, r' :: SameQuestion(r, r') && answer(r).Ok? ==> answer(r') == answer(r)
  }

  /** With an injective fingerprint the cache is invisible if and only if the question decides a successful answer. */
  lemma TransparentIffQuestionDecides<R, E>(fingerprint: Signature -> string, answer: Answer<R, E>)
    requires Injective(fingerprint)
    ensures (forall ops :: FromGenerate(fingerprint, answer, ops) ==> Transparent(fingerprint, answer, ops))
       <==> QuestionDecides(answer)
  {
    TransparentIffKeyDecides(fingerprint, answer);
    if KeyDecides(fingerprint, answer) {
      forall r, r' | SameQuestion(r, r') && answer(r).Ok?
        ensures answer(r') == answer(r)
      {
        KeyIsTheQuestion(fingerprint, r, r');
      }
    }
    if QuestionDecides(answer) {
      forall r, r' | fingerprint(SignatureOf(r)) == fingerprint(SignatureOf(r')) && answer(r).Ok?
        ensures answer(r') == answer(r)
      {
        KeyIsTheQuestion(fingerprint, r, r');
      }
    }
  }
}
