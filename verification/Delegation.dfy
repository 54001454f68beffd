/** The delegation middleware: an ordered pipeline of checks with one side effect at its end, the charge to
    the budget pool of the chain. */
module Delegation {
  import opened Grants
  import Scopes
  import opened Wrappers

  // ---------------------------------------------------------------------------
  // The budget pool
  // ---------------------------------------------------------------------------

  type Pool = map<Id, int>

  predicate Covers(pool: Pool, chain: Id, amount: int) {
    chain in pool && pool[chain] >= amount
  }

  function Charge(pool: Pool, chain: Id, amount: int): Pool
    requires chain in pool
  {
    pool[chain := pool[chain] - amount]
  }

  /** What happens to the call of the script: it arrives and is answered, it never arrives, or the answer
      is lost after the script ran. */
  datatype Transport = Delivered | CallLost | ReplyLost

  datatype Decrement = Left(remaining: int) | ErrBudgetExhausted | ErrScript

  class BudgetPool {
    var pool: Pool

    constructor ()
      ensures pool == map[]
    {
      pool := map[];
    }

    method InitBudget(chain: Id, budget: int)
      modifies this
      ensures pool == old(pool)[chain := budget]
    {
      pool := pool[chain := budget];
    }

    /** The script: all or nothing. It never leaves a pool below zero, and a missing pool is no budget. */
    method RunScript(chain: Id, amount: int) returns (result: int)
      modifies this
      ensures var n := if amount <= 0 then 1 else amount;
              if Covers(old(pool), chain, n)
              then pool == Charge(old(pool), chain, n) && result == pool[chain] >= 0
              else pool == old(pool) && result == -1
      ensures var n := if amount <= 0 then 1 else amount;
              && pool.Keys == old(pool).Keys
              && (forall c :: c in pool && c != chain ==> pool[c] == old(pool)[c])
              && (chain in pool ==>
                    pool[chain] == (if old(pool)[chain] >= n then old(pool)[chain] - n else old(pool)[chain]))
              && (result >= 0 <==> chain in pool && old(pool)[chain] >= n)
    {
      var n := amount;
      if n <= 0 {
        n := 1;
      }
      if chain !in pool {
        return -1;
      }
      var current := pool[chain];
      if current < n {
        return -1;
      }
      result := current - n;
      pool := pool[chain := result];
    }

    /** DecrementBudget: the caller learns of a charge only if the reply arrives. */
    method DecrementBudget(chain: Id, amount: int, transport: Transport) returns (r: Decrement)
      modifies this
      ensures var n := if amount <= 0 then 1 else amount;
              && pool == (if !transport.CallLost? && Covers(old(pool), chain, n)
                          then Charge(old(pool), chain, n) else old(pool))
              && (r.ErrScript? <==> !transport.Delivered?)
              && (r.Left? <==> transport.Delivered? && Covers(old(pool), chain, n))
              && (r.Left? ==> r.remaining == pool[chain] >= 0)
    {
      var n := if amount <= 0 then 1 else amount;
      if transport.CallLost? {
        return ErrScript;
      }
      var result := RunScript(chain, n);
      if transport.ReplyLost? {
        return ErrScript;
      }
      if result < 0 {
        return ErrBudgetExhausted;
      }
      r := Left(result);
    }
  }

  // ---------------------------------------------------------------------------
  // Requests and checks
  // ---------------------------------------------------------------------------

  datatype Envelope = Envelope(
    tenant: Id,
    chain: Id,
    hasParent: bool,
    scope: seq<string>,
    rootIntent: string,
    hitl: string,
    depth: int,
    generation: int,
    expiresAt: int,
    budgetRemaining: int,
    status: Status)

  datatype Config = Config(maxDepth: int, maxFanOut: int, failOpen: bool)

  /** A request with what its context holds, and what its lookups answer; None is a lookup that failed. */
  datatype Request = Request(
    tenant: Option<Id>,
    grant: Option<Envelope>,
    root: Option<Envelope>,
    parentScope: seq<string>,
    user: Id,
    ancestors: seq<Id>,
    now: int,
    generation: Option<int>,
    activeChildren: Option<int>,
    transport: Transport)
  {
    predicate IsDelegated() {
      tenant.Some? && grant.Some?
    }
  }

  datatype Error =
    | ErrCrossTenant | ErrRevokedOrConsumed | ErrScopeIntersectionEmpty | ErrDepthLimit | ErrCycle
    | ErrIntentMismatch | ErrClassificationRelaxed | ErrFanOutLimit | ErrBudget

  datatype Verdict = PassThrough | Passed(ancestors: seq<Id>) | Refused(error: Error)

  function OrDefault(limit: int, default: int): int {
    if limit <= 0 then default else limit
  }

  /** classificationRank. */
  function Rank(hitl: string): nat {
    if hitl == "required" then 3
    else if hitl == "advisory" then 2
    else if hitl == "none" then 1
    else 0
  }

  const CHECKS := 9

  /** The k-th check of the pipeline turns the request away. */
  ghost predicate Fails(cfg: Config, req: Request, k: nat)
    requires req.IsDelegated()
  {
    var g := req.grant.value;
    match k
    case 0 => g.tenant != req.tenant.value
    case 1 => g.status.IsTerminal() || req.now > g.expiresAt
    case 2 => req.parentScope != [] && forall x :: x in req.parentScope ==> x !in g.scope
    case 3 => g.depth >= OrDefault(cfg.maxDepth, 5)
    case 4 => req.user in req.ancestors
    case 5 => req.generation.Some? && !UpToDate(g.generation, req.generation.value)
    case 6 => req.root.Some? && req.root.value.rootIntent != g.rootIntent
    case 7 => req.root.Some? && Rank(g.hitl) < Rank(req.root.value.hitl)
    case 8 => g.hasParent && req.activeChildren.Some? && req.activeChildren.value >= OrDefault(cfg.maxFanOut, 10)
    case _ => false
  }

  function ErrorOf(k: nat): Error {
    match k
    case 0 => ErrCrossTenant
    case 1 => ErrRevokedOrConsumed
    case 2 => ErrScopeIntersectionEmpty
    case 3 => ErrDepthLimit
    case 4 => ErrCycle
    case 5 => ErrRevokedOrConsumed
    case 6 => ErrIntentMismatch
    case 7 => ErrClassificationRelaxed
    case _ => ErrFanOutLimit
  }

  ghost predicate ClearUpTo(cfg: Config, req: Request, n: nat)
    requires req.IsDelegated()
  {
    forall k: nat :: k < n ==> !Fails(cfg, req, k)
  }

  ghost predicate Clear(cfg: Config, req: Request)
    requires req.IsDelegated()
  {
    ClearUpTo(cfg, req, CHECKS)
  }

  /** The request reaches the pool and takes one unit out of it. */
  ghost predicate Charged(cfg: Config, req: Request, pool: Pool) {
    && req.IsDelegated()
    && Clear(cfg, req)
    && req.grant.value.budgetRemaining > 0
    && !req.transport.CallLost?
    && Covers(pool, req.grant.value.chain, 1)
  }

  ghost function PoolAfter(cfg: Config, req: Request, pool: Pool): Pool {
    if Charged(cfg, req, pool) then Charge(pool, req.grant.value.chain, 1) else pool
  }

  /** The budget step lets the request through. */
  predicate Funded(cfg: Config, req: Request, pool: Pool)
    requires req.IsDelegated()
  {
    || req.grant.value.budgetRemaining <= 0
    || cfg.failOpen
    || (req.transport.Delivered? && Covers(pool, req.grant.value.chain, 1))
  }

  /** Verdict and pool after one request: the first failing check decides, the budget comes last. */
  ghost predicate Decided(cfg: Config, req: Request, pool: Pool, v: Verdict, after: Pool) {
    && after == PoolAfter(cfg, req, pool)
    && match v
       case PassThrough => !req.IsDelegated()
       case Passed(ancestors) =>
         req.IsDelegated() && Clear(cfg, req) && Funded(cfg, req, pool) && ancestors == req.ancestors + [req.user]
       case Refused(error) =>
         && req.IsDelegated()
         && (|| (error == ErrBudget && Clear(cfg, req) && !Funded(cfg, req, pool))
             || exists k: nat :: k < CHECKS && Fails(cfg, req, k) && ClearUpTo(cfg, req, k) && error == ErrorOf(k))
  }

  /** ValidateCycle. */
  method HasCycle(user: Id, ancestors: seq<Id>) returns (r: bool)
    ensures r <==> user in ancestors
  {
    for i := 0 to |ancestors|
      invariant user !in ancestors[..i]
    {
      if ancestors[i] == user {
        return true;
      }
    }
    r := false;
  }

  /** The scope step: an absent parent scope restricts nothing, and the intersection itself is dropped. */
  method ScopeAllows(parentScope: seq<string>, grantedScope: seq<string>) returns (ok: bool)
    ensures ok <==> parentScope == [] || exists x :: x in parentScope && x in grantedScope
  {
    if |parentScope| > 0 {
      var r := Scopes.Intersection(parentScope, grantedScope);
      Scopes.MeetIsIntersection(parentScope, grantedScope);
      return r.Ok?;
    }
    ok := true;
  }

  lemma FirstFailure(cfg: Config, req: Request, pool: Pool, k: nat)
    requires req.IsDelegated() && k < CHECKS && ClearUpTo(cfg, req, k) && Fails(cfg, req, k)
    ensures Decided(cfg, req, pool, Refused(ErrorOf(k)), pool)
  {
    hide Fails, ErrorOf;
  }

  lemma NextCheck(cfg: Config, req: Request, k: nat)
    requires req.IsDelegated() && ClearUpTo(cfg, req, k) && !Fails(cfg, req, k)
    ensures ClearUpTo(cfg, req, k + 1)
  {
    hide Fails;
  }

  /** Checks on the grant itself: tenant, lifecycle, scope, depth and cycle. The second tenant comparison
      of the pipeline repeats the first. */
  method CheckGrant(cfg: Config, req: Request, ghost pool: Pool) returns (refusal: Option<Error>)
    requires req.IsDelegated()
    ensures refusal.Some? ==> Decided(cfg, req, pool, Refused(refusal.value), pool)
    ensures refusal.None? ==> ClearUpTo(cfg, req, 5)
  {
    hide Decided, ClearUpTo;
    EmptyPrefix(cfg, req);
    var g := req.grant.value;
    if g.tenant != req.tenant.value {
      FirstFailure(cfg, req, pool, 0);
      return Some(ErrCrossTenant);
    }
    NextCheck(cfg, req, 0);
    if g.status.IsTerminal() || req.now > g.expiresAt {
      FirstFailure(cfg, req, pool, 1);
      return Some(ErrRevokedOrConsumed);
    }
    NextCheck(cfg, req, 1);
    var inScope := ScopeAllows(req.parentScope, g.scope);
    if !inScope {
      FirstFailure(cfg, req, pool, 2);
      return Some(ErrScopeIntersectionEmpty);
    }
    NextCheck(cfg, req, 2);
    if g.depth >= OrDefault(cfg.maxDepth, 5) {
      FirstFailure(cfg, req, pool, 3);
      return Some(ErrDepthLimit);
    }
    NextCheck(cfg, req, 3);
    var cycle := HasCycle(req.user, req.ancestors);
    if cycle {
      FirstFailure(cfg, req, pool, 4);
      return Some(ErrCycle);
    }
    NextCheck(cfg, req, 4);
    refusal := None;
  }

  lemma EmptyPrefix(cfg: Config, req: Request)
    requires req.IsDelegated()
    ensures ClearUpTo(cfg, req, 0)
  {
  }

  /** Checks against the chain: generation, root intent and classification, fan-out. */
  method CheckChain(cfg: Config, req: Request, ghost pool: Pool) returns (refusal: Option<Error>)
    requires req.IsDelegated() && ClearUpTo(cfg, req, 5)
    ensures refusal.Some? ==> Decided(cfg, req, pool, Refused(refusal.value), pool)
    ensures refusal.None? ==> ClearUpTo(cfg, req, CHECKS)
  {
    hide Decided, ClearUpTo;
    var g := req.grant.value;
    if req.generation.Some? && g.generation < req.generation.value {
      FirstFailure(cfg, req, pool, 5);
      return Some(ErrRevokedOrConsumed);
    }
    NextCheck(cfg, req, 5);
    if req.root.Some? && req.root.value.rootIntent != g.rootIntent {
      FirstFailure(cfg, req, pool, 6);
      return Some(ErrIntentMismatch);
    }
    NextCheck(cfg, req, 6);
    if req.root.Some? && Rank(g.hitl) < Rank(req.root.value.hitl) {
      FirstFailure(cfg, req, pool, 7);
      return Some(ErrClassificationRelaxed);
    }
    NextCheck(cfg, req, 7);
    if g.hasParent && req.activeChildren.Some? && req.activeChildren.value >= OrDefault(cfg.maxFanOut, 10) {
      FirstFailure(cfg, req, pool, 8);
      return Some(ErrFanOutLimit);
    }
    NextCheck(cfg, req, 8);
    refusal := None;
  }

  /** The middleware. */
  method Handle(cfg: Config, budget: BudgetPool, req: Request) returns (v: Verdict)
    modifies budget
    ensures Decided(cfg, req, old(budget.pool), v, budget.pool)
  {
    hide Fails, ErrorOf, ClearUpTo;
    if req.tenant.None? || req.grant.None? {
      return PassThrough;
    }
    var g := req.grant.value;
    var refusal := CheckGrant(cfg, req, budget.pool);
    if refusal.Some? {
      return Refused(refusal.value);
    }
    refusal := CheckChain(cfg, req, budget.pool);
    if refusal.Some? {
      return Refused(refusal.value);
    }
    if g.budgetRemaining > 0 {
      var r := budget.DecrementBudget(g.chain, 1, req.transport);
      if !r.Left? && !cfg.failOpen {
        return Refused(ErrBudget);
      }
    }
    v := Passed(req.ancestors + [req.user]);
  }

  // ---------------------------------------------------------------------------
  // One request
  // ---------------------------------------------------------------------------

  /** A delegated request passes exactly when every check is clear and the budget step lets it through. */
  lemma PassedIff(cfg: Config, req: Request, pool: Pool, v: Verdict, after: Pool)
    requires req.IsDelegated() && Decided(cfg, req, pool, v, after)
    ensures v.Passed? <==> Clear(cfg, req) && Funded(cfg, req, pool)
  {
    hide Fails, ErrorOf;
  }

  /** Request and pool determine the verdict. */
  lemma VerdictUnique(cfg: Config, req: Request, pool: Pool, v: Verdict, after: Pool, v': Verdict, after': Pool)
    requires Decided(cfg, req, pool, v, after) && Decided(cfg, req, pool, v', after')
    ensures v == v' && after == after'
  {
    hide Fails, ErrorOf;
    if v.Refused? && v'.Refused? && !Clear(cfg, req) {
      var k: nat :| k < CHECKS && Fails(cfg, req, k) && ClearUpTo(cfg, req, k) && v.error == ErrorOf(k);
      var l: nat :| l < CHECKS && Fails(cfg, req, l) && ClearUpTo(cfg, req, l) && v'.error == ErrorOf(l);
      assert k == l;
    }
  }

  // ---------------------------------------------------------------------------
  // The verdict on the request's own fields
  // ---------------------------------------------------------------------------

  /** What the nine checks ask, read off the request. */
  datatype Standing = Standing(
    sameTenant: bool,
    alive: bool,
    inScope: bool,
    shallow: bool,
    acyclic: bool,
    unrevoked: bool,
    sameIntent: bool,
    strict: bool,
    room: bool)

  ghost function StandingOf(cfg: Config, req: Request): Standing
    requires req.IsDelegated()
  {
    var g := req.grant.value;
    Standing(
      g.tenant == req.tenant.value,
      (g.status == Issued || g.status == Active) && req.now <= g.expiresAt,
      req.parentScope == [] || exists x :: x in req.parentScope && x in g.scope,
      g.depth < (if cfg.maxDepth > 0 then cfg.maxDepth else 5),
      req.user !in req.ancestors,
      req.generation.None? || g.generation >= req.generation.value,
      req.root.None? || req.root.value.rootIntent == g.rootIntent,
      req.root.None? || NoWeaker(req.root.value.hitl, g.hitl),
      !g.hasParent || req.activeChildren.None?
      || req.activeChildren.value < (if cfg.maxFanOut > 0 then cfg.maxFanOut else 10))
  }

  /** Required is stricter than advisory, advisory than none, and none than any other classification. */
  predicate NoWeaker(root: string, child: string) {
    if root == "required" then child == "required"
    else if root == "advisory" then child == "required" || child == "advisory"
    else if root == "none" then child == "required" || child == "advisory" || child == "none"
    else true
  }

  lemma NoWeakerIsRank(root: string, child: string)
    ensures NoWeaker(root, child) <==> Rank(child) >= Rank(root)
  {
    assert "required"[0] == 'r' && "advisory"[0] == 'a' && "none"[0] == 'n';
  }

  lemma FailsOnFields(cfg: Config, req: Request)
    requires req.IsDelegated()
    ensures var s := StandingOf(cfg, req);
            && (Fails(cfg, req, 0) <==> !s.sameTenant) && (Fails(cfg, req, 1) <==> !s.alive)
            && (Fails(cfg, req, 2) <==> !s.inScope) && (Fails(cfg, req, 3) <==> !s.shallow)
            && (Fails(cfg, req, 4) <==> !s.acyclic) && (Fails(cfg, req, 5) <==> !s.unrevoked)
            && (Fails(cfg, req, 6) <==> !s.sameIntent) && (Fails(cfg, req, 7) <==> !s.strict)
            && (Fails(cfg, req, 8) <==> !s.room)
  {
    if req.root.Some? {
      NoWeakerIsRank(req.root.value.hitl, req.grant.value.hitl);
    }
  }

  /** The verdict owed to a request of this standing: the first complaint decides, the budget comes last. */
  function Owed(s: Standing, funded: bool, ancestors: seq<Id>): Verdict {
    if !s.sameTenant then Refused(ErrCrossTenant)
    else if !s.alive then Refused(ErrRevokedOrConsumed)
    else if !s.inScope then Refused(ErrScopeIntersectionEmpty)
    else if !s.shallow then Refused(ErrDepthLimit)
    else if !s.acyclic then Refused(ErrCycle)
    else if !s.unrevoked then Refused(ErrRevokedOrConsumed)
    else if !s.sameIntent then Refused(ErrIntentMismatch)
    else if !s.strict then Refused(ErrClassificationRelaxed)
    else if !s.room then Refused(ErrFanOutLimit)
    else if !funded then Refused(ErrBudget)
    else Passed(ancestors)
  }

  /** Every verdict is the one that the request's own fields and the pool are owed. */
  lemma VerdictIsOwed(cfg: Config, req: Request, pool: Pool, v: Verdict, after: Pool)
    requires req.IsDelegated() && Decided(cfg, req, pool, v, after)
    ensures v == Owed(StandingOf(cfg, req), Funded(cfg, req, pool), req.ancestors + [req.user])
  {
    FailsOnFields(cfg, req);
    ClearIff(cfg, req);
    hide Fails, StandingOf, ClearUpTo, Clear, Funded;
    if v.Refused? && !Clear(cfg, req) {
      var k: nat :| k < CHECKS && Fails(cfg, req, k) && ClearUpTo(cfg, req, k) && v.error == ErrorOf(k);
      EarlierClear(cfg, req, k);
    }
  }

  /** A request that passes: its grant belongs to the tenant, is issued or active and not expired, shares a scope
      with the parent if there is one, lies above the depth limit, has the root's intent and no weaker a
      classification, and leaves room for children; the user is no ancestor and the chain was not revoked. */
  lemma PassedOnFields(cfg: Config, req: Request, pool: Pool, v: Verdict, after: Pool)
    requires Decided(cfg, req, pool, v, after) && v.Passed?
    ensures req.IsDelegated()
    ensures req.grant.value.tenant == req.tenant.value
    ensures req.grant.value.status in {Issued, Active} && req.now <= req.grant.value.expiresAt
    ensures req.parentScope == [] || exists x :: x in req.parentScope && x in req.grant.value.scope
    ensures req.grant.value.depth < if cfg.maxDepth > 0 then cfg.maxDepth else 5
    ensures req.user !in req.ancestors && v.ancestors == req.ancestors + [req.user]
    ensures req.generation.Some? ==> req.grant.value.generation >= req.generation.value
    ensures req.root.Some? ==> req.grant.value.rootIntent == req.root.value.rootIntent
    ensures req.root.Some? ==> NoWeaker(req.root.value.hitl, req.grant.value.hitl)
    ensures req.grant.value.hasParent && req.activeChildren.Some? ==>
              req.activeChildren.value < if cfg.maxFanOut > 0 then cfg.maxFanOut else 10
    ensures req.grant.value.budgetRemaining > 0 && !cfg.failOpen ==>
              && req.transport == Delivered
              && req.grant.value.chain in pool && pool[req.grant.value.chain] >= 1
              && after == pool[req.grant.value.chain := pool[req.grant.value.chain] - 1]
  {
    hide Fails, Clear;
    VerdictIsOwed(cfg, req, pool, v, after);
  }

  /** Conversely, a request that meets all of these is refused for its budget or not at all: with a grant that
      claims some, failing closed, when the pool was not charged or the answer was lost. */
  lemma RefusedForBudgetOnly(cfg: Config, req: Request, pool: Pool, v: Verdict, after: Pool)
    requires req.IsDelegated() && Decided(cfg, req, pool, v, after)
    requires StandingOf(cfg, req) == Standing(true, true, true, true, true, true, true, true, true)
    ensures v == Refused(ErrBudget) || v.Passed?
    ensures v == Refused(ErrBudget) <==>
              && req.grant.value.budgetRemaining > 0 && !cfg.failOpen
              && (req.transport != Delivered || req.grant.value.chain !in pool || pool[req.grant.value.chain] < 1)
  {
    hide StandingOf, Decided;
    VerdictIsOwed(cfg, req, pool, v, after);
  }

  lemma ClearIff(cfg: Config, req: Request)
    requires req.IsDelegated()
    ensures Clear(cfg, req) <==>
              && !Fails(cfg, req, 0) && !Fails(cfg, req, 1) && !Fails(cfg, req, 2)
              && !Fails(cfg, req, 3) && !Fails(cfg, req, 4) && !Fails(cfg, req, 5)
              && !Fails(cfg, req, 6) && !Fails(cfg, req, 7) && !Fails(cfg, req, 8)
  {
    hide Fails;
  }

  lemma EarlierClear(cfg: Config, req: Request, k: nat)
    requires req.IsDelegated() && ClearUpTo(cfg, req, k) && k < CHECKS
    ensures k > 0 ==> !Fails(cfg, req, 0)
    ensures k > 1 ==> !Fails(cfg, req, 1)
    ensures k > 2 ==> !Fails(cfg, req, 2)
    ensures k > 3 ==> !Fails(cfg, req, 3)
    ensures k > 4 ==> !Fails(cfg, req, 4)
    ensures k > 5 ==> !Fails(cfg, req, 5)
    ensures k > 6 ==> !Fails(cfg, req, 6)
    ensures k > 7 ==> !Fails(cfg, req, 7)
  {
    hide Fails;
  }

  /** Every request has a verdict on every pool. */
  lemma VerdictExists(cfg: Config, req: Request, pool: Pool) returns (v: Verdict)
    ensures Decided(cfg, req, pool, v, PoolAfter(cfg, req, pool))
  {
    hide Fails, ErrorOf, ClearUpTo, PoolAfter, Funded;
    if !req.IsDelegated() {
      return PassThrough;
    }
    var k := FirstFailing(cfg, req, CHECKS);
    if k < CHECKS {
      return Refused(ErrorOf(k));
    }
    v := if Funded(cfg, req, pool) then Passed(req.ancestors + [req.user]) else Refused(ErrBudget);
  }

  /** The first failing check, or n if none of the first n fails. */
  lemma {:induction false} FirstFailing(cfg: Config, req: Request, n: nat) returns (k: nat)
    requires req.IsDelegated()
    ensures k <= n && ClearUpTo(cfg, req, k) && (k < n ==> Fails(cfg, req, k))
  {
    hide Fails;
    if n == 0 {
      return 0;
    }
    k := FirstFailing(cfg, req, n - 1);
    if k == n - 1 && !Fails(cfg, req, k) {
      k := n;
    }
  }

  /** A refused request spends nothing, unless the script ran for it and the answer was lost. */
  lemma RefusedSpendsIff(cfg: Config, req: Request, pool: Pool, v: Verdict, after: Pool)
    requires Decided(cfg, req, pool, v, after) && v.Refused?
    ensures after != pool <==> !cfg.failOpen && Charged(cfg, req, pool) && req.transport.ReplyLost?
  {
    hide Fails, ErrorOf;
    if Charged(cfg, req, pool) {
      assert after[req.grant.value.chain] != pool[req.grant.value.chain];
    }
  }

  /** A request passes without a charge exactly when its grant claims no budget, or the middleware fails
      open and the pool could not be charged. */
  lemma FreePassIff(cfg: Config, req: Request, pool: Pool, v: Verdict, after: Pool)
    requires Decided(cfg, req, pool, v, after) && v.Passed?
    ensures after == pool <==>
              || req.grant.value.budgetRemaining <= 0
              || (cfg.failOpen && (req.transport.CallLost? || !Covers(pool, req.grant.value.chain, 1)))
  {
    hide Fails, ErrorOf;
    if Charged(cfg, req, pool) {
      assert after[req.grant.value.chain] != pool[req.grant.value.chain];
    }
  }

  /** A request that passes while its generation lookup answers was not overtaken by a revocation: over any
      legal history of the grants table, no grant of its chain was revoked since its grant was issued. */
  lemma PassedMeansUnrevoked(tables: seq<seq<Row>>, ops: seq<Op>, j: nat, k: nat,
                             cfg: Config, req: Request, pool: Pool, v: Verdict, after: Pool)
    requires Grants.IsRun(tables, ops) && j < k < |tables| && ops[j].Issue?
    requires Decided(cfg, req, pool, v, after) && v.Passed?
    requires req.grant.value.generation == ops[j].row.generation
    requires req.generation == Some(Generation(tables[k], ops[j].row.tenant, ops[j].row.chain))
    ensures !RevokedSince(tables[j], tables[k], ops[j].row.tenant, ops[j].row.chain)
  {
    hide Grants.IsRun, RevokedSince, Generation;
    CheckPassesIffUnrevoked(tables, ops, j, k);
    assert !Fails(cfg, req, 5);
  }

  // ---------------------------------------------------------------------------
  // Any interleaving of requests
  // ---------------------------------------------------------------------------

  /** Requests in the order in which they reach the pool; checks before that touch nothing shared. */
  ghost predicate IsRun(cfg: Config, reqs: seq<Request>, verdicts: seq<Verdict>, pools: seq<Pool>) {
    && |verdicts| == |reqs| && |pools| == |reqs| + 1
    && forall i :: 0 <= i < |reqs| ==> Decided(cfg, reqs[i], pools[i], verdicts[i], pools[i + 1])
  }

  predicate OfChain(req: Request, chain: Id) {
    req.IsDelegated() && req.grant.value.chain == chain
  }

  /** How many of the first n requests were charged to the chain. */
  ghost function Charges(cfg: Config, reqs: seq<Request>, pools: seq<Pool>, chain: Id, n: nat): nat
    requires n <= |reqs| <= |pools|
  {
    if n == 0 then 0
    else Charges(cfg, reqs, pools, chain, n - 1) +
         (if OfChain(reqs[n - 1], chain) && Charged(cfg, reqs[n - 1], pools[n - 1]) then 1 else 0)
  }

  /** How many of the first n requests passed under a grant of the chain. */
  function Passes(reqs: seq<Request>, verdicts: seq<Verdict>, chain: Id, n: nat): nat
    requires n <= |reqs| == |verdicts|
  {
    if n == 0 then 0
    else Passes(reqs, verdicts, chain, n - 1) +
         (if OfChain(reqs[n - 1], chain) && verdicts[n - 1].Passed? then 1 else 0)
  }

  /** Conservation, whatever is lost or fails: what the pool held is what it holds and what was charged. A
      pool that was not negative never becomes so, and a missing pool is never charged. */
  lemma {:induction false} BudgetConserved(cfg: Config, reqs: seq<Request>, verdicts: seq<Verdict>,
                                           pools: seq<Pool>, chain: Id, n: nat)
    requires IsRun(cfg, reqs, verdicts, pools) && n <= |reqs|
    ensures chain in pools[n] <==> chain in pools[0]
    ensures chain in pools[0] ==> pools[0][chain] == pools[n][chain] + Charges(cfg, reqs, pools, chain, n)
    ensures chain in pools[0] && pools[0][chain] >= 0 ==> pools[n][chain] >= 0
    ensures chain !in pools[0] ==> Charges(cfg, reqs, pools, chain, n) == 0
    decreases n
  {
    hide Clear, Funded;
    if n > 0 {
      BudgetConserved(cfg, reqs, verdicts, pools, chain, n - 1);
      assert Decided(cfg, reqs[n - 1], pools[n - 1], verdicts[n - 1], pools[n - 1 + 1]);
    }
  }

  /** The grants of the chain all claim some budget. */
  predicate AllClaim(reqs: seq<Request>, chain: Id) {
    forall i :: 0 <= i < |reqs| && OfChain(reqs[i], chain) ==> reqs[i].grant.value.budgetRemaining > 0
  }

  predicate NoReplyLost(reqs: seq<Request>, chain: Id) {
    forall i :: 0 <= i < |reqs| && OfChain(reqs[i], chain) ==> !reqs[i].transport.ReplyLost?
  }

  /** Failing closed, every pass is a charge; and every charge a pass, if no reply is lost. */
  lemma {:induction false} PassesAreCharges(cfg: Config, reqs: seq<Request>, verdicts: seq<Verdict>,
                                            pools: seq<Pool>, chain: Id, n: nat)
    requires IsRun(cfg, reqs, verdicts, pools) && n <= |reqs| && !cfg.failOpen && AllClaim(reqs, chain)
    ensures Passes(reqs, verdicts, chain, n) <= Charges(cfg, reqs, pools, chain, n)
    ensures NoReplyLost(reqs, chain) ==>
              Passes(reqs, verdicts, chain, n) == Charges(cfg, reqs, pools, chain, n)
    decreases n
  {
    hide Clear;
    if n > 0 {
      PassesAreCharges(cfg, reqs, verdicts, pools, chain, n - 1);
      var req := reqs[n - 1];
      assert Decided(cfg, req, pools[n - 1], verdicts[n - 1], pools[n - 1 + 1]);
      if OfChain(req, chain) {
        PassedIff(cfg, req, pools[n - 1], verdicts[n - 1], pools[n]);
      }
    }
  }

  /** Failing closed and with every grant claiming budget, over any interleaving no more requests pass
      than the chain was given; if no reply is lost, the pool and the passes account for all of it. */
  lemma PassesWithinBudget(cfg: Config, reqs: seq<Request>, verdicts: seq<Verdict>, pools: seq<Pool>, chain: Id)
    requires IsRun(cfg, reqs, verdicts, pools) && !cfg.failOpen && AllClaim(reqs, chain)
    requires chain in pools[0] && pools[0][chain] >= 0
    ensures chain in pools[|reqs|] && pools[|reqs|][chain] >= 0
    ensures Passes(reqs, verdicts, chain, |reqs|) + pools[|reqs|][chain] <= pools[0][chain]
    ensures NoReplyLost(reqs, chain) ==>
              pools[0][chain] == pools[|reqs|][chain] + Passes(reqs, verdicts, chain, |reqs|)
  {
    BudgetConserved(cfg, reqs, verdicts, pools, chain, |reqs|);
    PassesAreCharges(cfg, reqs, verdicts, pools, chain, |reqs|);
  }

  // ---------------------------------------------------------------------------
  // Hops
  // ---------------------------------------------------------------------------

  ghost predicate NoRepeats(ids: seq<Id>) {
    forall i, j :: 0 <= i < j < |ids| ==> ids[i] != ids[j]
  }

  /** Each request carries the ancestors that the previous one was passed on with. */
  ghost predicate AreHops(cfg: Config, reqs: seq<Request>, verdicts: seq<Verdict>, pools: seq<Pool>) {
    && |verdicts| == |pools| == |reqs| > 0
    && (forall i :: 0 <= i < |reqs| ==>
          verdicts[i].Passed? && exists after :: Decided(cfg, reqs[i], pools[i], verdicts[i], after))
    && forall i :: 0 < i < |reqs| ==> reqs[i].ancestors == verdicts[i - 1].ancestors
  }

  /** Along any sequence of accepted hops no delegate appears twice. */
  lemma {:induction false} HopsNeverRepeat(cfg: Config, reqs: seq<Request>, verdicts: seq<Verdict>,
                                           pools: seq<Pool>, n: nat)
    requires AreHops(cfg, reqs, verdicts, pools) && n < |reqs| && NoRepeats(reqs[0].ancestors)
    ensures NoRepeats(verdicts[n].ancestors)
    ensures |verdicts[n].ancestors| == |reqs[0].ancestors| + n + 1
    ensures forall i :: 0 <= i <= n ==> reqs[i].user in verdicts[n].ancestors
    decreases n
  {
    hide Decided;
    if n > 0 {
      HopsNeverRepeat(cfg, reqs, verdicts, pools, n - 1);
    }
    var after :| Decided(cfg, reqs[n], pools[n], verdicts[n], after);
    PassedAddsNewcomer(cfg, reqs[n], pools[n], verdicts[n], after);
  }

  lemma PassedAddsNewcomer(cfg: Config, req: Request, pool: Pool, v: Verdict, after: Pool)
    requires Decided(cfg, req, pool, v, after) && v.Passed?
    ensures req.user !in req.ancestors && v.ancestors == req.ancestors + [req.user]
  {
    assert !Fails(cfg, req, 4);
  }

  /** The same request with another classification on its grant. */
  function Reclassified(req: Request, hitl: string): Request
    requires req.IsDelegated()
  {
    req.(grant := Some(req.grant.value.(hitl := hitl)))
  }

  /** The classification of the grant is of no consequence exactly when the root's is none of the three that
      are ranked. That goes for "optional", which the grants table admits: under such a root every grant
      passes that passes with any classification, "none" included. */
  lemma ClassificationIgnoredIff(cfg: Config, req: Request)
    requires req.IsDelegated() && req.root.Some? && Clear(cfg, req)
    ensures (forall h :: Clear(cfg, Reclassified(req, h))) <==>
              req.root.value.hitl !in {"required", "advisory", "none"}
    ensures req.root.value.hitl == "optional" ==> forall h :: Clear(cfg, Reclassified(req, h))
  {
    forall h
      ensures Clear(cfg, Reclassified(req, h)) <==> Rank(h) >= Rank(req.root.value.hitl)
    {
      OnlyRankMatters(cfg, req, h);
    }
    assert Rank("") == 0;
    assert Clear(cfg, Reclassified(req, "")) <==> Rank(req.root.value.hitl) == 0;
    assert "optional"[0] !in {'r', 'a', 'n'};
  }

  lemma OnlyRankMatters(cfg: Config, req: Request, h: string)
    requires req.IsDelegated() && req.root.Some? && Clear(cfg, req)
    ensures Clear(cfg, Reclassified(req, h)) <==> Rank(h) >= Rank(req.root.value.hitl)
  {
    hide Rank;
    var other := Reclassified(req, h);
    forall k: nat | k < CHECKS
      ensures Fails(cfg, other, k) <==> k == 7 && Rank(h) < Rank(req.root.value.hitl)
    {
      assert !Fails(cfg, req, k);
    }
    assert Fails(cfg, other, 7) <==> Rank(h) < Rank(req.root.value.hitl);
  }
}
