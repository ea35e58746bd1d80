/** `HomeserverPublisher::publish` as the method it is, writing key after key to a shared server. */
module HomeserverPublisher {
  import opened Bytes
  import opened Outcomes
  import opened DatasetManifest
  import opened DatasetCore
  import opened Publications
  import opened Homeserver

  class Server {
    var store: Store

    constructor ()
      ensures store == map[]
    {
      store := map[];
    }

    method Put(key: seq<byte>, value: Document, outcome: Outcome) returns (ok: bool)
      modifies this
      ensures store == Write(old(store), key, value, outcome)
      ensures ok <==> outcome.Stored?
    {
      if !outcome.NotStored? {
        store := store[key := value];
      }
      return outcome.Stored?;
    }
  }

  /** The writes of process `p` in the order the method issues them. */
  function Puts(p: nat, outcomes: nat -> Outcome, count: nat): seq<Action>
  {
    seq(count, k requires 0 <= k => Put(p, outcomes(k)))
  }

  /** What one call to `publish` does in the step machine. */
  function PublishSteps(p: nat, createdAt: u64, files: Files, expected: Option<Bytes32>, readable: bool,
                        outcomes: nat -> Outcome): seq<Action>
  {
    [Begin(p, createdAt, files, expected, readable)] + Puts(p, outcomes, |files| + 2)
  }

  lemma {:induction false} IdlePutsDoNothing(c: Crypto, id: Bytes32, w: World, p: nat, before: seq<Action>,
                                             outcomes: nat -> Outcome, k: nat, count: nat)
    requires p < |w.procs| && k <= count
    requires Steps(c, id, w, before + Puts(p, outcomes, k)).procs == w.procs[p := Idle]
    ensures Steps(c, id, w, before + Puts(p, outcomes, count)) == Steps(c, id, w, before + Puts(p, outcomes, k))
    decreases count
  {
    hide Step, Steps;
    if k < count {
      IdlePutsDoNothing(c, id, w, p, before, outcomes, k, count - 1);
      PutsThen(c, id, w, p, before, outcomes, count - 1);
      IdlePut(c, id, Steps(c, id, w, before + Puts(p, outcomes, k)), p, outcomes(count - 1));
    }
  }

  lemma IdlePut(c: Crypto, id: Bytes32, w: World, p: nat, outcome: Outcome)
    requires p < |w.procs| && w.procs[p].Idle?
    ensures Step(c, id, w, Put(p, outcome)) == w
  {
  }

  lemma PutsThen(c: Crypto, id: Bytes32, w: World, p: nat, before: seq<Action>, outcomes: nat -> Outcome, k: nat)
    ensures Steps(c, id, w, before + Puts(p, outcomes, k + 1)) ==
            Step(c, id, Steps(c, id, w, before + Puts(p, outcomes, k)), Put(p, outcomes(k)))
    ensures before + Puts(p, outcomes, 0) == before
  {
    assert before + Puts(p, outcomes, k + 1) == before + Puts(p, outcomes, k) + [Put(p, outcomes(k))];
    StepsThen(c, id, w, before + Puts(p, outcomes, k), Put(p, outcomes(k)));
  }

  lemma PreparedPlan(c: Crypto, id: Bytes32, current: Option<Head>, createdAt: u64, files: Files,
                     expected: Option<Bytes32>)
    ensures var r := Prepare(c, id, current, createdAt, files, expected);
      if r.Ok? then r.value.files == files && Staged(c, id, createdAt, files).Ok? else !r.error.WriteFailed?
  {
  }

  lemma BeginDoes(c: Crypto, id: Bytes32, w: World, begin: Action)
    requires begin.Begin? && begin.p < |w.procs| && w.procs[begin.p].Idle?
    ensures var begun, n := Begun(c, id, w, begin), Steps(c, id, w, [begin]);
      && n.store == w.store && n.log == w.log
      && n.procs == if begun.Ok? then w.procs[begin.p := Writing(begun.value, 0)] else w.procs[begin.p := Idle]
  {
    assert [begin][..0] == [] && Steps(c, id, w, []) == w;
  }

  lemma PutDoes(c: Crypto, id: Bytes32, w: World, p: nat, plan: Plan, k: nat, outcome: Outcome)
    requires p < |w.procs| && w.procs[p] == Writing(plan, k) && k <= |plan.files| + 1
    ensures var n := Step(c, id, w, Put(p, outcome));
      && n.store == Write(w.store, Key(plan, k), Value(plan, k), outcome)
      && n.procs == w.procs[p := if outcome.Stored? && k <= |plan.files| then Writing(plan, k + 1) else Idle]
      && (outcome.Stored? ==> n.log == if k <= |plan.files| then w.log else w.log + [plan])
  {
    hide Key, Value;
  }

  predicate AllStored(outcomes: nat -> Outcome, count: nat)
  {
    forall k :: 0 <= k < count ==> outcomes(k).Stored?
  }

  lemma BegunWhenMay(c: Crypto, id: Bytes32, w: World, a: Action)
    requires a.Begin? && c.validKey(id)
    ensures Begun(c, id, w, a).Ok? <==>
              && a.readable && LoadHead(id, w.store).Ok?
              && MayReplace(LoadHead(id, w.store).value, a.expected) && Publishable(a.createdAt, a.files)
  {
    hide Begun, LoadHead, MayReplace, Publishable, GoodEdition;
    BegunExactly(c, id, w, a);
  }

  class Publisher {
    const identity: Bytes32
    const server: Server

    constructor (identity: Bytes32, server: Server)
      ensures this.identity == identity && this.server == server
    {
      this.identity := identity;
      this.server := server;
    }

    /** `publish`: check the head, stage, then write objects, manifest and head in this order,
        stopping at the first failure. The `k`-th write meets `outcomes(k)`. The call does to
        the store exactly what the step machine does from a world `w` where `p` is idle, and
        succeeds exactly when the head can be read and replaced, the files are publishable and every
        write succeeds. */
    method Publish(c: Crypto, createdAt: u64, files: Files, expected: Option<Bytes32>, readable: bool,
                   outcomes: nat -> Outcome, ghost w: World, ghost p: nat)
      returns (r: Result<Snapshot, PublishError>)
      requires c.validKey(identity)
      requires w.store == server.store && p < |w.procs| && w.procs[p].Idle?
      modifies server
      ensures server.store ==
              Steps(c, identity, w, PublishSteps(p, createdAt, files, expected, readable, outcomes)).store
      ensures r.Ok? <==>
                && readable && LoadHead(identity, old(server.store)).Ok?
                && MayReplace(LoadHead(identity, old(server.store)).value, expected)
                && Publishable(createdAt, files)
                && AllStored(outcomes, |files| + 2)
      ensures r.Err? ==>
                if r.error.WriteFailed? then !AllStored(outcomes, |files| + 2)
                else Begun(c, identity, w, Begin(p, createdAt, files, expected, readable)) == Err(r.error)
      ensures r.Ok? ==>
                && Staged(c, identity, createdAt, files) == Ok(r.value)
                && Steps(c, identity, w, PublishSteps(p, createdAt, files, expected, readable, outcomes)).log
                   == w.log + [Begun(c, identity, w, Begin(p, createdAt, files, expected, readable)).value]
    {
      hide Step, Steps, LoadHead, Prepare, Staged, MayReplace, Publishable, AllStored, Puts;
      ghost var begin := Begin(p, createdAt, files, expected, readable);
      BegunWhenMay(c, identity, w, begin);
      BeginDoes(c, identity, w, begin);
      PutsThen(c, identity, w, p, [begin], outcomes, 0);
      if Begun(c, identity, w, begin).Err? {
        IdlePutsDoNothing(c, identity, w, p, [begin], outcomes, 0, |files| + 2);
      }
      if !readable {
        return Err(CannotRead(Transport));
      }
      var current := LoadHead(identity, server.store);
      if current.Err? {
        return Err(CannotRead(current.error));
      }
      var prepared := Prepare(c, identity, current.value, createdAt, files, expected);
      PreparedPlan(c, identity, current.value, createdAt, files, expected);
      if prepared.Err? {
        return Err(prepared.error);
      }
      var written := WritePlan(c, prepared.value, outcomes, w, p, [begin]);
      if !written {
        return Err(WriteFailed);
      }
      return Ok(Staged(c, identity, createdAt, files).value);
    }

    /** The writes of `publish`, in order, up to the first failure. */
    method WritePlan(c: Crypto, plan: Plan, outcomes: nat -> Outcome, ghost w: World, ghost p: nat,
                     ghost before: seq<Action>)
      returns (ok: bool)
      requires p < |w.procs| && Steps(c, identity, w, before).procs == w.procs[p := Writing(plan, 0)]
      requires Steps(c, identity, w, before).store == server.store
      modifies server
      ensures ok <==> AllStored(outcomes, |plan.files| + 2)
      ensures var n := Steps(c, identity, w, before + Puts(p, outcomes, |plan.files| + 2));
        server.store == n.store && (ok ==> n.log == Steps(c, identity, w, before).log + [plan])
    {
      hide Step, Steps, Key, Value, Write;
      var count := |plan.files| + 2;
      ghost var log := Steps(c, identity, w, before).log;
      PutsThen(c, identity, w, p, before, outcomes, 0);
      for k := 0 to count
        invariant AllStored(outcomes, k)
        invariant var n := Steps(c, identity, w, before + Puts(p, outcomes, k));
          && server.store == n.store
          && n.procs == w.procs[p := if k < count then Writing(plan, k) else Idle]
          && n.log == if k < count then log else log + [plan]
      {
        PutDoes(c, identity, Steps(c, identity, w, before + Puts(p, outcomes, k)), p, plan, k, outcomes(k));
        var stored := server.Put(Key(plan, k), Value(plan, k), outcomes(k));
        PutsThen(c, identity, w, p, before, outcomes, k);
        if !stored {
          IdlePutsDoNothing(c, identity, w, p, before, outcomes, k + 1, count);
          return false;
        }
      }
      return true;
    }
  }
}
