/** One induction over whole runs for properties of the world state, and its instances. */
module WorldInvariants {
  import opened Bytes
  import opened Environment
  import opened Accounts
  import opened Words
  import opened Opcodes
  import opened Evm
  import opened EvmInvariants
  import EvmMemory

  // ----- the ways execution changes the world -----

  ghost predicate KeptByTransfer(I: World -> bool) {
    forall w, a, b, v :: I(w) && Transfer(w, a, b, v).Some? ==> I(Transfer(w, a, b, v).value)
  }

  function OpenAccount(w: World, creator: ByteSeq, address: ByteSeq): World {
    AddBalance(IncrementNonce(w, creator), address, 0)
  }

  function Deploy(w: World, address: ByteSeq, code: ByteSeq, storage: map<nat, nat>): World {
    Persist(SetCode(w, address, code), address, storage)
  }

  ghost predicate KeptByOpening(P: ByteSeq -> bool, I: World -> bool) {
    forall w, a, address :: I(w) && P(address) ==> I(OpenAccount(w, a, address))
  }

  ghost predicate KeptByDeploying(P: ByteSeq -> bool, I: World -> bool) {
    forall w, address, code, storage :: I(w) && P(address) ==> I(Deploy(w, address, code, storage))
  }

  /** The frame of a message to `target`: the code and a copy of the storage found there. */
  function Message(env: Env, w: World, target: ByteSeq, ctx: Context, gas: nat): Outcome {
    Run(env, Job(Get(w, target).code, ctx, true), Fresh(gas, Get(w, target).storage), w)
  }

  ghost predicate Succeeded(o: Outcome) {
    o.Done? && !o.f.reverted
  }

  /** Writing back the storage of a message that succeeded, when the message itself kept I. */
  ghost predicate KeptByMessage(env: Env, I: World -> bool) {
    forall w, target, ctx: Context, gas |
      I(w) && Get(w, target).code != [] && ctx.address == target && Succeeded(Message(env, w, target, ctx, gas))
           && I(Message(env, w, target, ctx, gas).w)
      :: I(Persist(Message(env, w, target, ctx, gas).w, target, Message(env, w, target, ctx, gas).f.storage))
  }

  /** Every way to change the world keeps I, as long as contracts are created only at addresses in P. */
  ghost predicate Closed(env: Env, P: ByteSeq -> bool, I: World -> bool) {
    KeptByTransfer(I) && KeptByOpening(P, I) && KeptByDeploying(P, I) && KeptByMessage(env, I)
  }

  ghost function Anywhere(): ByteSeq -> bool {
    a => true
  }

  // ----- the contracts a run creates -----

  /** A use of an account's nonce to create a contract. */
  datatype Creation = Creation(creator: ByteSeq, nonce: nat)

  /** The frame is about to run a CREATE that gets as far as using up its creator's nonce. */
  ghost predicate Creates(env: Env, v: Visit) {
    && !v.f.stopped && v.f.pc < |v.job.code| && v.job.code[v.f.pc] == OP_CREATE && v.job.attached
    && (Begin(env, v.job, v.f, v.w).Next? || Begin(env, v.job, v.f, v.w).Spawn?)
  }

  function CreationAt(v: Visit): Creation {
    Creation(v.job.ctx.address, Get(v.w, v.job.ctx.address).nonce)
  }

  /** The creations of a run, at every depth and whatever becomes of them. */
  ghost function Creations(env: Env, job: Job, f: Frame, w: World): set<Creation>
    decreases f.gas
  {
    (if Creates(env, Visit(job, f, w)) then {CreationAt(Visit(job, f, w))} else {}) +
    match Begin(env, job, f, w)
    case Halt(_) => {}
    case Fail(_) => {}
    case Next(g, w1) => Creations(env, job, g, w1)
    case Spawn(child, init, w1, k) =>
      Creations(env, child, init, w1) +
      match Resume(env, k, Run(env, child, init, w1))
      case Raised(_, _) => {}
      case Done(g, w2) => Creations(env, job, g, w2)
  }

  lemma HaltedCreatesNothing(env: Env, job: Job, f: Frame, w: World)
    ensures var p := Begin(env, job, f, w); p.Halt? || p.Fail? ==> !Creates(env, Visit(job, f, w))
    ensures var p := Begin(env, job, f, w); p.Halt? ==> !Creates(env, Visit(job, p.f, w))
  {}

  /** They are exactly those of the states a run goes through that stand at such a CREATE. */
  lemma {:induction false} CreationsAreVisited(env: Env, job: Job, f: Frame, w: World, c: Creation)
    ensures c in Creations(env, job, f, w) <==>
      exists v :: v in Visits(env, job, f, w) && Creates(env, v) && CreationAt(v) == c
    decreases f.gas
  {
    hide Begin, Resume, Run, Creates, CreationAt;
    var here := Visit(job, f, w);
    assert here in Visits(env, job, f, w);
    HaltedCreatesNothing(env, job, f, w);
    match Begin(env, job, f, w)
    case Halt(g) =>
    case Fail(_) =>
    case Next(g, w1) => CreationsAreVisited(env, job, g, w1, c);
    case Spawn(child, init, w1, k) =>
      CreationsAreVisited(env, child, init, w1, c);
      var o := Resume(env, k, Run(env, child, init, w1));
      if o.Done? { CreationsAreVisited(env, job, o.f, o.w, c); }
  }

  ghost predicate Allowed(env: Env, P: ByteSeq -> bool, c: Creation) {
    var address := ContractAddress(env, c.creator, c.nonce);
    address.Some? ==> P(address.value)
  }

  /** The creations derive only addresses in P. */
  ghost predicate AllAllowed(env: Env, P: ByteSeq -> bool, cs: set<Creation>) {
    forall c | c in cs :: Allowed(env, P, c)
  }

  lemma AnywhereIsAllowed(env: Env, cs: set<Creation>)
    ensures AllAllowed(env, Anywhere(), cs)
  {}

  // ----- the induction -----

  /** What a spawned child is made of. */
  ghost predicate ChildShape(P: ByteSeq -> bool, p: Plan) {
    p.Spawn? ==>
      match p.k
      case AfterCall(_, target, forwarded, _, _) =>
        && p.child == Job(Get(p.w, target).code, p.child.ctx, true)
        && p.init == Fresh(forwarded, Get(p.w, target).storage)
        && p.child.ctx.address == target && p.child.code != []
      case AfterCreate(_, address) => P(address)
  }

  lemma TransferKeepsCode(w: World, a: ByteSeq, b: ByteSeq, v: nat, target: ByteSeq)
    requires Transfer(w, a, b, v).Some?
    ensures var w1 := Transfer(w, a, b, v).value;
      Get(w1, target).code == Get(w, target).code && Get(w1, target).storage == Get(w, target).storage
      && Get(w1, target).nonce == Get(w, target).nonce
  {}

  lemma BeginCallKeeps(env: Env, P: ByteSeq -> bool, I: World -> bool, job: Job, f: Frame, w: World)
    requires Closed(env, P, I) && I(w)
    ensures var p := BeginCall(env, job, f, w); (p.Next? || p.Spawn? ==> I(p.w)) && ChildShape(P, p)
  {
    hide KeptByOpening, KeptByDeploying, KeptByMessage, Transfer, FromBE, WordBytes, EvmMemory.ReadRange;
    if |f.stack| >= 7 && IsWord(Operand(f, 1)) {
      var target := WordBytes(Operand(f, 1))[12..];
      if Transfer(w, job.ctx.address, target, Operand(f, 2)).Some? {
        TransferKeepsCode(w, job.ctx.address, target, Operand(f, 2), target);
      }
    }
  }

  lemma BeginCreateKeeps(env: Env, P: ByteSeq -> bool, I: World -> bool, job: Job, f: Frame, w: World)
    requires Closed(env, P, I) && I(w)
    requires var p := BeginCreate(env, job, f, w);
      job.attached && (p.Next? || p.Spawn?) ==>
        Allowed(env, P, Creation(job.ctx.address, Get(w, job.ctx.address).nonce))
    ensures var p := BeginCreate(env, job, f, w); (p.Next? || p.Spawn? ==> I(p.w)) && ChildShape(P, p)
  {
    hide KeptByDeploying, KeptByMessage, Transfer, FromBE, EvmMemory.ReadRange, ContractAddress;
    var p := BeginCreate(env, job, f, w);
    if job.attached && (p.Next? || p.Spawn?) {
      var address := ContractAddress(env, job.ctx.address, Get(w, job.ctx.address).nonce).value;
      assert I(OpenAccount(w, job.ctx.address, address));
    }
  }

  lemma BeginKeeps(env: Env, P: ByteSeq -> bool, I: World -> bool, job: Job, f: Frame, w: World)
    requires Closed(env, P, I) && I(w)
    requires var v := Visit(job, f, w); Creates(env, v) ==> Allowed(env, P, CreationAt(v))
    ensures var p := Begin(env, job, f, w); (p.Next? || p.Spawn? ==> I(p.w)) && ChildShape(P, p)
  {
    hide Closed, BeginCall, BeginCreate, Exec, Allowed;
    if !f.stopped && f.pc < |job.code| {
      var b := job.code[f.pc];
      if GasCost(b).Some? && GasCost(b).value <= f.gas {
        var g := f.(gas := f.gas - GasCost(b).value, pc := f.pc + 1);
        if b == OP_CALL { BeginCallKeeps(env, P, I, job, g, w); }
        if b == OP_CREATE { BeginCreateKeeps(env, P, I, job, g, w); }
      }
    }
  }

  lemma ResumeKeeps(env: Env, P: ByteSeq -> bool, I: World -> bool, p: Plan, o: Outcome)
    requires Closed(env, P, I)
    requires p.Spawn? && ChildShape(P, p) && I(p.w)
    requires p.init.gas == p.k.ChildGas() <= p.k.f.gas
    requires o == Run(env, p.child, p.init, p.w) && I(o.w)
    ensures I(Resume(env, p.k, o).w)
  {
    hide Run, FromBE, EvmMemory.WriteRange, FitReturn, Persist, SetCode;
    if o.Done? && !o.f.reverted {
      match p.k
      case AfterCall(f, target, forwarded, retOff, retLen) =>
        assert o == Message(env, p.w, target, p.child.ctx, forwarded);
        assert I(Persist(o.w, target, o.f.storage));
      case AfterCreate(f, address) =>
        assert I(Deploy(o.w, address, o.f.ret, o.f.storage));
    }
  }

  /** A property of the world that every elementary change keeps holds after any run, whatever code runs, if the run
      creates contracts only where the property allows it. */
  lemma {:induction false} RunKeeps(env: Env, P: ByteSeq -> bool, I: World -> bool, job: Job, f: Frame, w: World)
    requires Closed(env, P, I) && I(w) && AllAllowed(env, P, Creations(env, job, f, w))
    ensures I(Run(env, job, f, w).w)
    decreases f.gas
  {
    hide Begin, Resume, Closed, ChildShape, Creates, CreationAt, Allowed;
    BeginKeeps(env, P, I, job, f, w);
    var p := Begin(env, job, f, w);
    match p
    case Halt(g) =>
    case Fail(_) =>
    case Next(g, w1) => RunKeeps(env, P, I, job, g, w1);
    case Spawn(child, init, w1, k) =>
      RunKeeps(env, P, I, child, init, w1);
      ResumeKeeps(env, P, I, p, Run(env, child, init, w1));
      var o := Resume(env, k, Run(env, child, init, w1));
      if o.Done? { RunKeeps(env, P, I, job, o.f, o.w); }
  }

  // ----- ether -----

  lemma OpeningConservesEther(w: World, creator: ByteSeq, address: ByteSeq)
    ensures TotalEther(OpenAccount(w, creator, address)) == TotalEther(w)
  {
    var w1 := IncrementNonce(w, creator);
    TotalAfterUpdate(w, creator, Get(w1, creator));
    TotalAfterUpdate(w1, address, Get(AddBalance(w1, address, 0), address));
  }

  lemma PersistConservesEther(w: World, a: ByteSeq, storage: map<nat, nat>)
    ensures TotalEther(Persist(w, a, storage)) == TotalEther(w)
  {
    TotalAfterUpdate(w, a, Get(w, a).(storage := Get(w, a).storage + storage));
  }

  lemma DeployConservesEther(w: World, address: ByteSeq, code: ByteSeq, storage: map<nat, nat>)
    ensures TotalEther(Deploy(w, address, code, storage)) == TotalEther(w)
  {
    TotalAfterUpdate(w, address, Get(w, address).(code := code));
    PersistConservesEther(SetCode(w, address, code), address, storage);
  }

  /** Execution neither creates nor destroys ether, whatever the code does at whatever depth. */
  lemma RunConservesEther(env: Env, job: Job, f: Frame, w: World)
    ensures TotalEther(Run(env, job, f, w).w) == TotalEther(w)
  {
    hide Run, TotalEther, Transfer, OpenAccount, Deploy, Persist;
    var total := TotalEther(w);
    var I := (v: World) => TotalEther(v) == total;
    forall v, a, b, n | I(v) && Transfer(v, a, b, n).Some?
      ensures I(Transfer(v, a, b, n).value)
    {
      TransferConservesEther(v, a, b, n);
    }
    forall v, a, address | I(v)
      ensures I(OpenAccount(v, a, address))
    {
      OpeningConservesEther(v, a, address);
    }
    forall v, address, code, storage | I(v)
      ensures I(Deploy(v, address, code, storage))
    {
      DeployConservesEther(v, address, code, storage);
    }
    forall v, target, ctx: Context, gas |
      Succeeded(Message(env, v, target, ctx, gas)) && I(Message(env, v, target, ctx, gas).w)
      ensures I(Persist(Message(env, v, target, ctx, gas).w, target, Message(env, v, target, ctx, gas).f.storage))
    {
      PersistConservesEther(Message(env, v, target, ctx, gas).w, target, Message(env, v, target, ctx, gas).f.storage);
    }
    AnywhereIsAllowed(env, Creations(env, job, f, w));
    RunKeeps(env, Anywhere(), I, job, f, w);
  }

  // ----- nonces -----

  ghost predicate NoncesGrow(w0: World, w: World) {
    forall a :: Get(w0, a).nonce <= Get(w, a).nonce
  }

  lemma NoncesGrowReflexive(w: World)
    ensures NoncesGrow(w, w)
  {}

  lemma UpdateGrowsNonces(w0: World, w: World, a: ByteSeq, acct: Account)
    requires NoncesGrow(w0, w) && Get(w, a).nonce <= acct.nonce
    ensures NoncesGrow(w0, w[a := acct])
  {}

  lemma TransferGrowsNonces(w0: World, w: World, a: ByteSeq, b: ByteSeq, v: nat)
    requires NoncesGrow(w0, w) && Transfer(w, a, b, v).Some?
    ensures NoncesGrow(w0, Transfer(w, a, b, v).value)
  {
    hide NoncesGrow;
    if v > 0 {
      var paid := DeductBalance(w, a, v).value;
      UpdateGrowsNonces(w0, w, a, Get(paid, a));
      UpdateGrowsNonces(w0, paid, b, Get(AddBalance(paid, b, v), b));
    }
  }

  lemma PersistGrowsNonces(w0: World, w: World, a: ByteSeq, storage: map<nat, nat>)
    requires NoncesGrow(w0, w)
    ensures NoncesGrow(w0, Persist(w, a, storage))
  {
    UpdateGrowsNonces(w0, w, a, Get(w, a).(storage := Get(w, a).storage + storage));
  }

  /** The worlds in which no nonce is below the one in `w0`. */
  ghost function NoncesFrom(w0: World): World -> bool {
    w => NoncesGrow(w0, w)
  }

  lemma NoncesGrowingIsClosed(env: Env, w: World)
    ensures Closed(env, Anywhere(), NoncesFrom(w))
  {
    hide Run, NoncesGrow, Transfer, OpenAccount, Deploy, Persist;
    var I := NoncesFrom(w);
    forall v, a, b, n | I(v) && Transfer(v, a, b, n).Some?
      ensures I(Transfer(v, a, b, n).value)
    {
      TransferGrowsNonces(w, v, a, b, n);
    }
    forall v, a, address | I(v)
      ensures I(OpenAccount(v, a, address))
    {
      OpeningGrowsNonces(w, v, a, address);
    }
    forall v, address, code, storage | I(v)
      ensures I(Deploy(v, address, code, storage))
    {
      DeployGrowsNonces(w, v, address, code, storage);
    }
    forall v, target, ctx: Context, gas |
      Succeeded(Message(env, v, target, ctx, gas)) && I(Message(env, v, target, ctx, gas).w)
      ensures I(Persist(Message(env, v, target, ctx, gas).w, target, Message(env, v, target, ctx, gas).f.storage))
    {
      var o := Message(env, v, target, ctx, gas);
      PersistGrowsNonces(w, o.w, target, o.f.storage);
    }
  }

  /** Execution never lowers a nonce. */
  lemma RunGrowsNonces(env: Env, job: Job, f: Frame, w: World)
    ensures NoncesGrow(w, Run(env, job, f, w).w)
  {
    hide Run, NoncesGrow, Closed;
    NoncesGrowReflexive(w);
    NoncesGrowingIsClosed(env, w);
    AnywhereIsAllowed(env, Creations(env, job, f, w));
    RunKeeps(env, Anywhere(), NoncesFrom(w), job, f, w);
  }

  lemma OpeningGrowsNonces(w0: World, w: World, a: ByteSeq, address: ByteSeq)
    requires NoncesGrow(w0, w)
    ensures NoncesGrow(w0, OpenAccount(w, a, address))
  {
    var w1 := IncrementNonce(w, a);
    UpdateGrowsNonces(w0, w, a, Get(w1, a));
    UpdateGrowsNonces(w0, w1, address, Get(OpenAccount(w, a, address), address));
  }

  lemma DeployGrowsNonces(w0: World, w: World, address: ByteSeq, code: ByteSeq, storage: map<nat, nat>)
    requires NoncesGrow(w0, w)
    ensures NoncesGrow(w0, Deploy(w, address, code, storage))
  {
    UpdateGrowsNonces(w0, w, address, Get(w, address).(code := code));
    PersistGrowsNonces(w0, SetCode(w, address, code), address, storage);
  }

  lemma CreateRaisesNonce(env: Env, v: Visit)
    requires Creates(env, v)
    ensures var p := Begin(env, v.job, v.f, v.w); var creator := v.job.ctx.address;
      (p.Next? || p.Spawn?) && Get(v.w, creator).nonce + 1 == Get(p.w, creator).nonce
  {
    hide BeginCreate;
    CreateOpens(env, v.job, v.f.(gas := v.f.gas - GAS_CREATE, pc := v.f.pc + 1), v.w);
  }

  lemma CreateOpens(env: Env, job: Job, f: Frame, w: World)
    requires BeginCreate(env, job, f, w).Spawn? || (BeginCreate(env, job, f, w).Next? && job.attached)
    ensures Get(w, job.ctx.address).nonce + 1 == Get(BeginCreate(env, job, f, w).w, job.ctx.address).nonce
  {
    hide FromBE, EvmMemory.ReadRange, Transfer, ContractAddress;
    var creator := job.ctx.address;
    var address := ContractAddress(env, creator, Get(w, creator).nonce).value;
    var w1 := OpenAccount(w, creator, address);
    assert Get(w1, creator).nonce == Get(w, creator).nonce + 1;
    if Transfer(w1, creator, address, Operand(f, 0)).Some? {
      TransferKeepsCode(w1, creator, address, Operand(f, 0), creator);
    }
  }

  lemma BeginGrowsNonces(env: Env, job: Job, f: Frame, w: World)
    ensures var p := Begin(env, job, f, w); p.Next? || p.Spawn? ==> NoncesGrow(w, p.w)
  {
    hide Begin, NoncesGrow;
    NoncesGrowReflexive(w);
    NoncesGrowingIsClosed(env, w);
    AnywhereIsAllowed(env, {CreationAt(Visit(job, f, w))});
    BeginKeeps(env, Anywhere(), NoncesFrom(w), job, f, w);
  }

  lemma ResumeGrowsNonces(env: Env, k: Pending, o: Outcome)
    requires k.ChildGas() <= k.f.gas && (o.Done? ==> o.f.gas <= k.ChildGas())
    ensures NoncesGrow(o.w, Resume(env, k, o).w)
  {
    hide NoncesGrow, FromBE, Persist, SetCode, EvmMemory.WriteRange;
    NoncesGrowReflexive(o.w);
    if o.Done? && k.AfterCall? { PersistGrowsNonces(o.w, o.w, k.target, o.f.storage); }
    if o.Done? && k.AfterCreate? { DeployGrowsNonces(o.w, o.w, k.address, o.f.ret, o.f.storage); }
  }

  /** A creation uses a nonce that its creator had not used up before the run and has used up after it, even if every
      frame around it fails. */
  lemma {:induction false} CreationsUseNonces(env: Env, job: Job, f: Frame, w: World, c: Creation)
    ensures c in Creations(env, job, f, w) ==>
      Get(w, c.creator).nonce <= c.nonce < Get(Run(env, job, f, w).w, c.creator).nonce
    decreases f.gas
  {
    hide Begin, Resume, Creates;
    var here := Visit(job, f, w);
    BeginGrowsNonces(env, job, f, w);
    HaltedCreatesNothing(env, job, f, w);
    if Creates(env, here) { CreateRaisesNonce(env, here); }
    match Begin(env, job, f, w)
    case Halt(_) =>
    case Fail(_) =>
    case Next(g, w1) =>
      RunGrowsNonces(env, job, g, w1);
      CreationsUseNonces(env, job, g, w1, c);
    case Spawn(child, init, w1, k) =>
      var o := Resume(env, k, Run(env, child, init, w1));
      ResumeGrowsNonces(env, k, Run(env, child, init, w1));
      RunGrowsNonces(env, child, init, w1);
      CreationsUseNonces(env, child, init, w1, c);
      if o.Done? {
        RunGrowsNonces(env, job, o.f, o.w);
        CreationsUseNonces(env, job, o.f, o.w, c);
      }
  }
}
