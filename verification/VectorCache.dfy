/**
  * `semanticVectors`: concurrent requests for one search text that agree on its vectors through a
  * set-if-absent store. Each access to the store is one step; any number of requests interleave.
  */
module VectorCache {
  import opened Wrappers

  datatype Vectors = Vectors(query: string, hyde: string)

  /** Where a request stands: before the first read, before each of its later accesses, or done. */
  datatype Phase =
    | Reading
    | Generating
    | Saving(generated: Vectors)
    | Rereading(generated: Vectors)
    | Done(vectors: Vectors)
    | Failed

  /** What the store answers to SETNX; a lost answer leaves open whether the write was made. */
  datatype Answer = Answered | Lost(applied: bool)

  datatype Action =
    | Start(call: nat)
    | Read(call: nat, ok: bool)
    | Generate(call: nat, embedding: Option<string>, document: Option<string>)
    | Save(call: nat, answer: Answer)
    | Reread(call: nat, ok: bool)
    | Expire

  /**
    * The value under the key and the requests. The rest is history: every value stored, how often the key
    * expired, and the requests that met a store error, or an expired key, from their SETNX on.
    */
  datatype System = System(store: Option<Vectors>, calls: map<nat, Phase>,
                           stored: seq<Vectors>, expiries: nat, unlucky: set<nat>)

  const INIT := System(None, map[], [], 0, {})

  /** `generateSearchVectors`: without the query's vector there is nothing; without the document, no second vector. */
  function Generated(embedding: Option<string>, document: Option<string>): (r: Option<Vectors>)
    ensures r.Some? ==> r.value.query != ""
  {
    if embedding.None? || embedding.value == "" then None
    else Some(Vectors(embedding.value, if document.Some? then document.value else ""))
  }

  /** A read that finds vectors. */
  predicate IsHit(store: Option<Vectors>, ok: bool) {
    ok && store.Some? && store.value.query != ""
  }

  function Move(s: System, call: nat, phase: Phase): System {
    s.(calls := s.calls[call := phase])
  }

  /** SETNX writes only where there is nothing. */
  function SetNX(s: System, v: Vectors): System {
    if s.store.None? then s.(store := Some(v), stored := s.stored + [v]) else s
  }

  function SaveStep(s: System, call: nat, v: Vectors, answer: Answer): System {
    match answer
    case Answered =>
      if s.store.None? then Move(SetNX(s, v), call, Done(v)) else Move(s, call, Rereading(v))
    case Lost(applied) =>
      var s' := if applied then SetNX(s, v) else s;
      Move(s', call, Done(v)).(unlucky := s.unlucky + {call})
  }

  predicate IsIn(s: System, call: nat, phase: Phase) {
    call in s.calls && s.calls[call] == phase
  }

  /** One step; an action that is not enabled changes nothing. */
  function Step(s: System, a: Action): System {
    match a
    case Start(call) => if call in s.calls then s else Move(s, call, Reading)
    case Read(call, ok) =>
      if !IsIn(s, call, Reading) then s
      else if IsHit(s.store, ok) then Move(s, call, Done(s.store.value))
      else Move(s, call, Generating)
    case Generate(call, embedding, document) =>
      if !IsIn(s, call, Generating) then s
      else
        var g := Generated(embedding, document);
        Move(s, call, if g.Some? then Saving(g.value) else Failed)
    case Save(call, answer) =>
      if call in s.calls && s.calls[call].Saving? then SaveStep(s, call, s.calls[call].generated, answer) else s
    case Reread(call, ok) =>
      if !(call in s.calls && s.calls[call].Rereading?) then s
      else if IsHit(s.store, ok) then Move(s, call, Done(s.store.value))
      else Move(s, call, Done(s.calls[call].generated)).(unlucky := s.unlucky + {call})
    case Expire => if s.store.Some? then s.(store := None, expiries := s.expiries + 1) else s
  }

  /** The phases of a request, in order; what it returned stays. */
  predicate IsMove(from: Phase, to: Phase) {
    || from == to
    || (from.Reading? && (to.Done? || to.Generating?))
    || (from.Generating? && (to.Saving? || to.Failed?))
    || (from.Saving? && (to.Done? || to == Rereading(from.generated)))
    || (from.Rereading? && to.Done?)
  }

  /** A step moves one request, forward; only a SETNX, where there is nothing, and the expiry change the key. */
  lemma StepsMoveForward(s: System, a: Action, c: nat)
    ensures var s' := Step(s, a);
            && (c in s.calls ==> c in s'.calls && IsMove(s.calls[c], s'.calls[c]))
            && (c in s'.calls && c !in s.calls ==> a == Start(c) && s'.calls[c] == Reading)
            && (c in s.calls && s'.calls[c] != s.calls[c] ==> !a.Expire? && a.call == c)
            && (s'.store == s.store
                || (s'.store == None && a == Expire)
                || (s.store == None && a.Save? && a.call in s.calls && s.calls[a.call].Saving?
                    && s'.store == Some(s.calls[a.call].generated)))
            && (a == Expire ==> s'.store == None)
  {
  }

  function Run(s: System, actions: seq<Action>): System {
    if actions == [] then s else Step(Run(s, actions[..|actions| - 1]), actions[|actions| - 1])
  }

  // ---- What every run keeps ----

  /** The vectors a request holds or has returned. */
  function Holds(p: Phase): Option<Vectors> {
    match p
    case Saving(v) => Some(v)
    case Rereading(v) => Some(v)
    case Done(v) => Some(v)
    case _ => None
  }

  /** The store holds the last value stored; each expiry makes room for one more. */
  ghost predicate StoreOk(s: System) {
    && (s.store.Some? ==> |s.stored| > 0 && s.store.value == s.stored[|s.stored| - 1])
    && |s.stored| == s.expiries + (if s.store.Some? then 1 else 0)
    && (forall v :: v in s.stored ==> v.query != "")
  }

  ghost predicate HeldOk(s: System) {
    forall c :: c in s.calls && Holds(s.calls[c]).Some? ==> Holds(s.calls[c]).value.query != ""
  }

  ghost predicate ReturnsOk(s: System) {
    forall c :: c in s.calls && s.calls[c].Done? && c !in s.unlucky ==> s.calls[c].vectors in s.stored
  }

  ghost predicate Inv(s: System) {
    StoreOk(s) && HeldOk(s) && ReturnsOk(s)
  }

  lemma StepKeepsStore(s: System, a: Action)
    requires StoreOk(s) && HeldOk(s)
    ensures StoreOk(Step(s, a))
  {
  }

  lemma StepKeepsHeld(s: System, a: Action)
    requires StoreOk(s) && HeldOk(s)
    ensures HeldOk(Step(s, a))
  {
  }

  lemma StepKeepsReturns(s: System, a: Action)
    requires StoreOk(s) && ReturnsOk(s)
    ensures ReturnsOk(Step(s, a))
  {
    var s' := Step(s, a);
    forall c | c in s'.calls && s'.calls[c].Done? && c !in s'.unlucky
      ensures s'.calls[c].vectors in s'.stored
    {
      if c in s.calls && s.calls[c] == s'.calls[c] {
        assert s.calls[c].vectors in s.stored;
      }
    }
  }

  lemma StepKeepsInv(s: System, a: Action)
    requires Inv(s)
    ensures Inv(Step(s, a))
  {
    StepKeepsStore(s, a);
    StepKeepsHeld(s, a);
    StepKeepsReturns(s, a);
  }

  lemma {:induction false} RunKeepsInv(s: System, actions: seq<Action>)
    requires Inv(s)
    ensures Inv(Run(s, actions))
  {
    if actions != [] {
      RunKeepsInv(s, actions[..|actions| - 1]);
      StepKeepsInv(Run(s, actions[..|actions| - 1]), actions[|actions| - 1]);
    }
  }

  /** A request that returned vectors and met no store error, and no expired key, from its SETNX on. */
  predicate Returned(s: System, call: nat, v: Vectors) {
    IsIn(s, call, Done(v)) && call !in s.unlucky
  }

  /** Whatever happens, such requests return stored values only, and one more value than expiries is ever stored. */
  lemma ReturnsAreStored(actions: seq<Action>)
    ensures var s := Run(INIT, actions);
            && |s.stored| <= s.expiries + 1
            && forall c, v :: Returned(s, c, v) ==> v in s.stored
  {
    RunKeepsInv(INIT, actions);
  }

  /** So while the key does not expire they all return the same vectors: the first ones stored. */
  lemma VectorAgreement(actions: seq<Action>, c: nat, d: nat, v: Vectors, w: Vectors)
    requires Run(INIT, actions).expiries == 0
    requires Returned(Run(INIT, actions), c, v) && Returned(Run(INIT, actions), d, w)
    ensures v == w && Run(INIT, actions).store == Some(v) && Run(INIT, actions).stored == [v]
  {
    RunKeepsInv(INIT, actions);
  }

  /** While the key does not expire, only an error of the store makes a request unlucky: a lost SETNX, a failed read. */
  lemma {:induction false} OnlyErrorsAreUnlucky(actions: seq<Action>, c: nat)
    requires Run(INIT, actions).expiries == 0
    requires forall a :: a in actions ==> !IsStoreError(a, c)
    ensures c !in Run(INIT, actions).unlucky
    ensures IsRereading(Run(INIT, actions), c) ==> Run(INIT, actions).store.Some?
  {
    if actions != [] {
      var rest, a := actions[..|actions| - 1], actions[|actions| - 1];
      assert forall x :: x in rest ==> x in actions;
      assert a in actions;
      OnlyErrorsAreUnlucky(rest, c);
      RunKeepsInv(INIT, rest);
      var s := Run(INIT, rest);
      if a.Save? && a.call == c {
        assert a.answer.Answered?;
      }
    }
  }

  /** A SETNX of the request whose answer is lost, or a failed second read. */
  predicate IsStoreError(a: Action, c: nat) {
    (a.Save? && a.call == c && a.answer.Lost?) || (a.Reread? && a.call == c && !a.ok)
  }

  predicate IsRereading(s: System, c: nat) {
    c in s.calls && s.calls[c].Rereading?
  }

  /** A query that could not be embedded is never stored, and never returned. */
  lemma EveryVectorHasItsQuery(actions: seq<Action>)
    ensures var s := Run(INIT, actions);
            && (s.store.Some? ==> s.store.value.query != "")
            && forall c :: c in s.calls && s.calls[c].Done? ==> s.calls[c].vectors.query != ""
  {
    RunKeepsInv(INIT, actions);
  }

  lemma {:induction false} RunConcat(s: System, a: seq<Action>, b: seq<Action>)
    ensures Run(s, a + b) == Run(Run(s, a), b)
  {
    if b == [] {
      assert a + b == a;
    } else {
      RunConcat(s, a, b[..|b| - 1]);
      assert (a + b)[..|a + b| - 1] == a + b[..|b| - 1];
    }
  }

  lemma RunOfFour(s: System, a: seq<Action>)
    requires |a| == 4
    ensures Run(s, a) == Step(Step(Step(Step(s, a[0]), a[1]), a[2]), a[3])
  {
    assert a[..3][..2] == a[..2] && a[..2][..1] == a[..1] && a[..1][..0] == [];
    assert Run(s, a[..1]) == Step(s, a[0]);
    assert Run(s, a[..2]) == Step(Step(s, a[0]), a[1]);
  }

  const A := Vectors("q", "a")
  const B := Vectors("q", "b")

  lemma RunOnThen(actions: seq<Action>, s: System, more: seq<Action>)
    requires Run(INIT, actions) == s && |more| == 4
    ensures Run(INIT, actions + more) == Step(Step(Step(Step(s, more[0]), more[1]), more[2]), more[3])
  {
    RunConcat(INIT, actions, more);
    RunOfFour(s, more);
  }

  /** Two requests that both missed. */
  lemma BothMiss() returns (actions: seq<Action>)
    ensures Run(INIT, actions) == System(None, map[1 := Generating, 2 := Generating], [], 0, {})
  {
    actions := [Start(1), Read(1, true), Start(2), Read(2, true)];
    RunOfFour(INIT, actions);
  }

  /** Agreement needs the SETNX to be answered: when it is not, two requests may return different vectors. */
  lemma LostWriteDisagrees() returns (actions: seq<Action>, v: Vectors, w: Vectors)
    ensures v != w && Run(INIT, actions).expiries == 0
    ensures IsIn(Run(INIT, actions), 1, Done(v)) && IsIn(Run(INIT, actions), 2, Done(w))
  {
    var first := BothMiss();
    var second := [Generate(1, Some("q"), Some("a")), Save(1, Answered),
                   Generate(2, Some("q"), Some("b")), Save(2, Lost(false))];
    RunOnThen(first, Run(INIT, first), second);
    return first + second, A, B;
  }

  /** And the second read to be made: after a failed one the request returns its own vectors. */
  lemma FailedRereadDisagrees() returns (actions: seq<Action>, v: Vectors, w: Vectors)
    ensures v != w && Run(INIT, actions).expiries == 0
    ensures IsIn(Run(INIT, actions), 1, Done(v)) && IsIn(Run(INIT, actions), 2, Done(w))
  {
    var first := BothMiss();
    var second := [Generate(1, Some("q"), Some("a")), Save(1, Answered),
                   Generate(2, Some("q"), Some("b")), Save(2, Answered)];
    RunOnThen(first, Run(INIT, first), second);
    assert Run(INIT, first + second).calls == map[1 := Done(A), 2 := Rereading(B)];
    RunConcat(INIT, first + second, [Reread(2, false)]);
    return first + second + [Reread(2, false)], A, B;
  }

  lemma FirstStores() returns (actions: seq<Action>)
    ensures Run(INIT, actions) == System(Some(A), map[1 := Done(A)], [A], 0, {})
  {
    actions := [Start(1), Read(1, true), Generate(1, Some("q"), Some("a")), Save(1, Answered)];
    RunOfFour(INIT, actions);
  }

  /** And the key not to expire: a later request then stores vectors of its own. */
  lemma ExpiredKeyDisagrees() returns (actions: seq<Action>, v: Vectors, w: Vectors)
    ensures v != w && Run(INIT, actions).expiries == 1
    ensures Returned(Run(INIT, actions), 1, v) && Returned(Run(INIT, actions), 2, w)
  {
    var first := FirstStores();
    var second := [Start(2), Expire, Read(2, true), Generate(2, Some("q"), Some("b"))];
    RunOnThen(first, Run(INIT, first), second);
    assert Run(INIT, first + second).calls == map[1 := Done(A), 2 := Saving(B)];
    RunConcat(INIT, first + second, [Save(2, Answered)]);
    return first + second + [Save(2, Answered)], A, B;
  }

  // ---- The request itself ----

  datatype VectorError = NoEmbedding

  /** What the calls of one request bring. */
  datatype Answers = Answers(firstRead: bool, embedding: Option<string>, document: Option<string>,
                             answer: Answer, secondRead: bool)

  /** What a request returns, from the key's value at its first read, at its SETNX and at its second read. */
  function Outcome(s0: Option<Vectors>, s1: Option<Vectors>, s2: Option<Vectors>, n: Answers)
    : Result<Vectors, VectorError>
  {
    if IsHit(s0, n.firstRead) then Ok(s0.value)
    else
      var g := Generated(n.embedding, n.document);
      if g.None? then Err(NoEmbedding)
      else if n.answer.Answered? && s1.Some? && IsHit(s2, n.secondRead) then Ok(s2.value)
      else Ok(g.value)
  }

  /**
    * Vectors found at the first read are returned. Without them, no vector of the query is an error; else
    * the generated vectors are returned, unless the SETNX finds others that the second read still finds.
    */
  lemma OutcomeMeans(s0: Option<Vectors>, s1: Option<Vectors>, s2: Option<Vectors>, n: Answers)
    ensures var r := Outcome(s0, s1, s2, n);
            && (n.firstRead && s0.Some? && s0.value.query != "" ==> r == Ok(s0.value))
            && (r.Err? <==> !(n.firstRead && s0.Some? && s0.value.query != "")
                            && (n.embedding.None? || n.embedding.value == ""))
            && (r.Ok? && !(n.firstRead && s0.Some? && s0.value.query != "") ==>
                  if n.answer == Answered && s1.Some? && n.secondRead && s2.Some? && s2.value.query != ""
                  then r.value == s2.value
                  else r.value.query == n.embedding.value
                       && r.value.hyde == if n.document.Some? then n.document.value else "")
  {
  }

  /** Actions of other requests, and expiry. */
  predicate OfOthers(actions: seq<Action>, call: nat) {
    forall i :: 0 <= i < |actions| ==> actions[i].Expire? || actions[i].call != call
  }

  lemma {:induction false} OthersKeepCall(s: System, actions: seq<Action>, call: nat)
    requires OfOthers(actions, call) && call in s.calls
    ensures call in Run(s, actions).calls && Run(s, actions).calls[call] == s.calls[call]
  {
    if actions != [] {
      OthersKeepCall(s, actions[..|actions| - 1], call);
    }
  }

  /** The request up to its SETNX, and after it, with any steps of others in between. */
  function ReadAndGenerate(s: System, call: nat, others: seq<Action>, n: Answers): System {
    Step(Step(Run(Step(s, Start(call)), others), Read(call, n.firstRead)), Generate(call, n.embedding, n.document))
  }

  function SaveAndReread(s: System, call: nat, others: seq<Action>, n: Answers): System {
    Step(Run(Step(s, Save(call, n.answer)), others), Reread(call, n.secondRead))
  }

  /** Where the request is before its SETNX. */
  lemma ReadAndGenerateEnds(s: System, call: nat, others: seq<Action>, n: Answers)
    requires call !in s.calls && OfOthers(others, call)
    ensures var s0, g := Run(Step(s, Start(call)), others).store, Generated(n.embedding, n.document);
            IsIn(ReadAndGenerate(s, call, others, n), call,
                 if IsHit(s0, n.firstRead) then Done(s0.value) else if g.Some? then Saving(g.value) else Failed)
  {
    OthersKeepCall(Step(s, Start(call)), others, call);
  }

  /** From there to its end. */
  lemma SaveAndRereadEnds(s: System, call: nat, others: seq<Action>, n: Answers, g: Vectors)
    requires IsIn(s, call, Saving(g)) && OfOthers(others, call)
    ensures var s2 := Run(Step(s, Save(call, n.answer)), others).store;
            IsIn(SaveAndReread(s, call, others, n), call,
                 Done(if n.answer.Answered? && s.store.Some? && IsHit(s2, n.secondRead) then s2.value else g))
  {
    OthersKeepCall(Step(s, Save(call, n.answer)), others, call);
  }

  lemma EndedStays(s: System, call: nat, others: seq<Action>, n: Answers, phase: Phase)
    requires IsIn(s, call, phase) && (phase.Done? || phase.Failed?) && OfOthers(others, call)
    ensures IsIn(SaveAndReread(s, call, others, n), call, phase)
  {
    OthersKeepCall(Step(s, Save(call, n.answer)), others, call);
  }

  /** The protocol's steps of one request, whatever others do in between, end with its outcome. */
  lemma RequestIsItsSteps(s: System, call: nat, o0: seq<Action>, o1: seq<Action>, o2: seq<Action>, n: Answers)
    requires call !in s.calls && OfOthers(o0, call) && OfOthers(o1, call) && OfOthers(o2, call)
    ensures var s0 := Run(Step(s, Start(call)), o0);
            var s1 := Run(ReadAndGenerate(s, call, o0, n), o1);
            var s2 := Run(Step(s1, Save(call, n.answer)), o2);
            var r := Outcome(s0.store, s1.store, s2.store, n);
            IsIn(SaveAndReread(s1, call, o2, n), call, if r.Ok? then Done(r.value) else Failed)
  {
    var middle := ReadAndGenerate(s, call, o0, n);
    ReadAndGenerateEnds(s, call, o0, n);
    OthersKeepCall(middle, o1, call);
    var phase := middle.calls[call];
    if phase.Saving? {
      SaveAndRereadEnds(Run(middle, o1), call, o2, n, phase.generated);
    } else {
      EndedStays(Run(middle, o1), call, o2, n, phase);
    }
  }

  /** Nobody but the expiry takes a stored value away. */
  lemma {:induction false} StoredStays(s: System, actions: seq<Action>)
    requires s.store.Some? && Expire !in actions
    ensures Run(s, actions).store == s.store
  {
    if actions != [] {
      assert actions[|actions| - 1] != Expire;
      StoredStays(s, actions[..|actions| - 1]);
    }
  }

  /**
    * When exactly a request joins the agreement: with w stored and not expiring, and vectors of its own
    * that differ, it returns w if and only if its first read succeeds, or its SETNX is answered and its
    * second read succeeds.
    */
  lemma AgreesIff(s: System, call: nat, o0: seq<Action>, o1: seq<Action>, o2: seq<Action>, n: Answers, w: Vectors)
    requires Inv(s) && s.store == Some(w) && call !in s.calls
    requires OfOthers(o0, call) && OfOthers(o1, call) && OfOthers(o2, call)
    requires Expire !in o0 && Expire !in o1 && Expire !in o2
    requires var g := Generated(n.embedding, n.document); g.Some? && g.value != w
    ensures var s1 := Run(ReadAndGenerate(s, call, o0, n), o1);
            IsIn(SaveAndReread(s1, call, o2, n), call, Done(w))
            <==> n.firstRead || (n.answer.Answered? && n.secondRead)
  {
    var s1 := Run(ReadAndGenerate(s, call, o0, n), o1);
    StoredStays(Step(s, Start(call)), o0);
    StoredStays(ReadAndGenerate(s, call, o0, n), o1);
    StoredStays(Step(s1, Save(call, n.answer)), o2);
    assert w.query != "";
    RequestIsItsSteps(s, call, o0, o1, o2, n);
  }

  method GenerateSearchVectors(embedding: Option<string>, document: Option<string>)
    returns (r: Result<Vectors, VectorError>)
    ensures r.Ok? <==> embedding.Some? && embedding.value != ""
    ensures r.Ok? ==> r.value.query == embedding.value
    ensures r.Ok? ==> r.value.hyde == if document.Some? then document.value else ""
  {
    if embedding.None? || embedding.value == "" {
      return Err(NoEmbedding);
    }
    var vectors := Vectors(embedding.value, "");
    if document.None? {
      return Ok(vectors);
    }
    vectors := vectors.(hyde := document.value);
    return Ok(vectors);
  }

  /** What others do to the key between two accesses of a request: a SETNX that is made, or its expiry. */
  datatype StoreOp = Put(v: Vectors) | Drop

  function AfterOps(value: Option<Vectors>, ops: seq<StoreOp>): Option<Vectors> {
    if ops == [] then value
    else
      var before := AfterOps(value, ops[..|ops| - 1]);
      match ops[|ops| - 1]
      case Put(v) => if before.None? then Some(v) else before
      case Drop => None
  }

  /** The key in Redis. */
  class VectorStore {
    var value: Option<Vectors>

    constructor ()
      ensures value == None
    {
      value := None;
    }

    method Get(ok: bool) returns (r: Option<Vectors>)
      ensures r == if ok then value else None
    {
      r := if ok then value else None;
    }

    /** None when the answer is lost. */
    method SetNX(v: Vectors, answer: Answer) returns (stored: Option<bool>)
      modifies this
      ensures value == if old(value).None? && answer != Lost(false) then Some(v) else old(value)
      ensures stored == if answer.Answered? then Some(old(value).None?) else None
    {
      stored := if answer.Answered? then Some(value.None?) else None;
      if value.None? && answer != Lost(false) {
        value := Some(v);
      }
    }

    method Interfere(ops: seq<StoreOp>)
      modifies this
      ensures value == AfterOps(old(value), ops)
    {
      for n := 0 to |ops|
        invariant value == AfterOps(old(value), ops[..n])
      {
        assert ops[..n + 1][..n] == ops[..n];
        match ops[n]
        case Put(v) => if value.None? { value := Some(v); }
        case Drop => value := None;
      }
      assert ops[..|ops|] == ops;
    }
  }

  method SemanticVectors(redis: VectorStore, n: Answers, o0: seq<StoreOp>, o1: seq<StoreOp>, o2: seq<StoreOp>)
    returns (r: Result<Vectors, VectorError>)
    modifies redis
    ensures var s0 := AfterOps(old(redis.value), o0);
            var s1 := AfterOps(s0, o1);
            var saved := if s1.None? && n.answer != Lost(false) then Generated(n.embedding, n.document) else s1;
            var s2 := AfterOps(saved, o2);
            && r == Outcome(s0, s1, s2, n)
            && redis.value == if IsHit(s0, n.firstRead) || r.Err? then s0
                              else if n.answer.Answered? && s1.Some? then s2
                              else saved
  {
    redis.Interfere(o0);
    var cached := redis.Get(n.firstRead);
    if cached.Some? && cached.value.query != "" {
      return Ok(cached.value);
    }
    var generated := GenerateSearchVectors(n.embedding, n.document);
    if generated.Err? {
      assert generated.error.NoEmbedding?;
      return Err(generated.error);
    }
    redis.Interfere(o1);
    var stored := redis.SetNX(generated.value, n.answer);
    if stored.None? {
      return generated;
    }
    if !stored.value {
      redis.Interfere(o2);
      var winner := redis.Get(n.secondRead);
      if winner.Some? && winner.value.query != "" {
        return Ok(winner.value);
      }
    }
    return generated;
  }
}
