/** Concurrent transfers (src/apps/transfers/services.py:132-199): each transaction takes its locks, reads
    under them, and writes balances computed from what it read. Every interleaving commits the effects of
    a serial execution. Locks last until the transaction ends; which of the two account rows is locked
    first is left open, and a transaction may be rolled back at any point. */
module LedgerInterleaving {
  import opened Base
  import opened Accounts
  import opened Ledger
  import LedgerInvariant

  /** One call of _execute_once by a user; sender is the user's account, found first and without a lock. */
  datatype Job = Job(user: nat, sender: nat, name: string, cents: nat, key: nat, payload: string)

  /** payee is the user that name denotes and recipient that user's account; the read rows are as they
      were when the second lock was granted; users is the table that the activity checks saw. */
  datatype Phase =
    | Ready
    | Keyed
    | Fresh
    | Aimed(payee: nat, recipient: nat)
    | HalfLocked(payee: nat, recipient: nat, first: nat)
    | Locked(payee: nat, recipient: nat, readSender: Account, readRecipient: Account)
    | Writing(payee: nat, recipient: nat, readSender: Account, readRecipient: Account, users: seq<User>)
    | Denying
    | Ended

  datatype Txn = Txn(job: Job, phase: Phase)

  /** What a commit did, as one atomic effect. */
  datatype Effect =
    | Posted(job: Job, users: seq<User>)
    | Refused(job: Job)
    | Atomic(command: LedgerInvariant.Command)

  datatype State = State(tables: Tables, users: seq<User>, txns: seq<Txn>, effects: seq<Effect>)

  /** Users change in any way that keeps their names. Other is one of the commands that never wait between
      reading and writing: seeding, closing, withdrawing or reconciling. */
  datatype Move =
    | Begin(job: Job)
    | TakeKey(t: nat)
    | Look(t: nat)
    | Aim(t: nat)
    | LockFirst(t: nat, account: nat)
    | LockSecond(t: nat)
    | Decide(t: nat)
    | Commit(t: nat)
    | Rollback(t: nat)
    | ChangeUsers(users: seq<User>)
    | Other(command: LedgerInvariant.Command)

  // ---------- Locks ----------

  predicate HoldsKey(x: Txn, sender: nat, key: nat) {
    !x.phase.Ready? && !x.phase.Ended? && x.job.sender == sender && x.job.key == key
  }

  /** A denial keeps its rows locked until it commits; letting them go early only adds interleavings. */
  predicate HoldsAccount(x: Txn, account: nat) {
    match x.phase
    case HalfLocked(_, _, first) => first == account
    case Locked(_, recipient, _, _) => x.job.sender == account || recipient == account
    case Writing(_, recipient, _, _, _) => x.job.sender == account || recipient == account
    case _ => false
  }

  /** No other transaction holds the row. */
  ghost predicate Free(s: State, t: nat, account: nat) {
    forall u :: 0 <= u < |s.txns| && u != t ==> !HoldsAccount(s.txns[u], account)
  }

  ghost predicate KeyFree(s: State, sender: nat, key: nat) {
    forall u :: 0 <= u < |s.txns| ==> !HoldsKey(s.txns[u], sender, key)
  }

  /** The rows an atomic command locks and the safety lock it needs: reconciling waits until no transfer
      is under way. */
  ghost predicate MayRunAtomically(s: State, c: LedgerInvariant.Command) {
    match c
    case Seed(_) => true
    case Close(user) => forall a :: 0 <= a < |s.tables.accounts| && s.tables.accounts[a].user == user ==> Free(s, |s.txns|, a)
    case Withdraw(account) => Free(s, |s.txns|, account)
    case Check(_, _, _) => forall u :: 0 <= u < |s.txns| ==> s.txns[u].phase.Ready? || s.txns[u].phase.Ended?
    case _ => false
  }

  ghost predicate Possible(s: State, e: Move) {
    match e
    case Begin(job) => FindAccount(s.tables.accounts, job.user) == Some(job.sender) && job.cents > 0
    case TakeKey(t) => t < |s.txns| && s.txns[t].phase.Ready? && KeyFree(s, s.txns[t].job.sender, s.txns[t].job.key)
    case Look(t) => t < |s.txns| && s.txns[t].phase.Keyed?
    case Aim(t) => t < |s.txns| && s.txns[t].phase.Fresh?
    case LockFirst(t, account) =>
      && t < |s.txns| && s.txns[t].phase.Aimed? && Free(s, t, account)
      && (account == s.txns[t].job.sender || account == s.txns[t].phase.recipient)
    case LockSecond(t) =>
      && t < |s.txns| && s.txns[t].phase.HalfLocked?
      && Free(s, t, s.txns[t].job.sender) && Free(s, t, s.txns[t].phase.recipient)
    case Decide(t) => t < |s.txns| && s.txns[t].phase.Locked?
    case Commit(t) => t < |s.txns| && (s.txns[t].phase.Writing? || s.txns[t].phase.Denying?)
    case Rollback(t) => t < |s.txns|
    case ChangeUsers(users) => NamesKept(s.users, users)
    case Other(c) => LedgerInvariant.WellFormed(c) && MayRunAtomically(s, c)
  }

  // ---------- Steps ----------

  function Enter(s: State, t: nat, phase: Phase): State
    requires t < |s.txns|
  {
    s.(txns := s.txns[t := s.txns[t].(phase := phase)])
  }

  /** The rows the commit writes; the balances come from the rows read earlier. */
  function WriteBack(l: Tables, job: Job, recipient: nat, readSender: Account, readRecipient: Account): Tables
    requires job.sender < |l.accounts| && recipient < |l.accounts|
  {
    var debited := l.accounts[job.sender := l.accounts[job.sender].(balance := readSender.balance - job.cents)];
    var credited := debited[recipient := debited[recipient].(balance := readRecipient.balance + job.cents)];
    var (j, t) := (|l.journals|, |l.transfers|);
    var body := Receipt(t, job.name, job.cents, readSender.balance - job.cents);
    l.(accounts := credited,
       journals := l.journals + [TransferJournal],
       entries := l.entries + [Entry(j, Owner(job.sender), -(job.cents as int)), Entry(j, Owner(recipient), job.cents)],
       transfers := l.transfers + [TransferRow(job.sender, recipient, j, job.cents)],
       requests := l.requests[(job.sender, job.key) := Request(job.payload, 201, body, Some(t))])
  }

  predicate ReadPermits(users: seq<User>, job: Job, readSender: Account, readRecipient: Account) {
    && readSender.isOpen && readRecipient.isOpen
    && MayTransfer(users, readSender.user) && MayTransfer(users, readRecipient.user)
    && readSender.balance >= job.cents && readRecipient.balance + job.cents <= MAX_BALANCE
  }

  function AimedAt(l: Tables, users: seq<User>, job: Job): Option<(nat, nat)> {
    match FindUser(users, job.name)
    case None => None
    case Some(payee) =>
      if payee == job.user then None
      else
        match FindAccount(l.accounts, payee)
        case None => None
        case Some(recipient) => Some((payee, recipient))
  }

  /** The job's parties and their accounts. */
  predicate Sites(l: Tables, job: Job, payee: nat, recipient: nat) {
    payee != job.user && FindAccount(l.accounts, payee) == Some(recipient)
  }

  predicate InTables(l: Tables, x: Txn) {
    && FindAccount(l.accounts, x.job.user) == Some(x.job.sender)
    && (match x.phase
        case Aimed(p, r) => Sites(l, x.job, p, r)
        case HalfLocked(p, r, _) => Sites(l, x.job, p, r)
        case Locked(p, r, _, _) => Sites(l, x.job, p, r)
        case Writing(p, r, _, _, _) => Sites(l, x.job, p, r)
        case _ => true)
  }

  ghost predicate Sited(s: State) {
    forall t :: 0 <= t < |s.txns| ==> InTables(s.tables, s.txns[t])
  }

  ghost function Step(s: State, e: Move): State
    requires Sited(s) && Possible(s, e)
  {
    var l := s.tables;
    match e
    case Begin(job) => s.(txns := s.txns + [Txn(job, Ready)])
    case TakeKey(t) => Enter(s, t, Keyed)
    case Look(t) =>
      var job := s.txns[t].job;
      if (job.sender, job.key) in l.requests || !l.safety.Open? then Enter(s, t, Ended) else Enter(s, t, Fresh)
    case Aim(t) =>
      (match AimedAt(l, s.users, s.txns[t].job)
       case Some(site) => Enter(s, t, Aimed(site.0, site.1))
       case None => Enter(s, t, Denying))
    case LockFirst(t, account) => Enter(s, t, HalfLocked(s.txns[t].phase.payee, s.txns[t].phase.recipient, account))
    case LockSecond(t) =>
      var r := s.txns[t].phase.recipient;
      Enter(s, t, Locked(s.txns[t].phase.payee, r, l.accounts[s.txns[t].job.sender], l.accounts[r]))
    case Decide(t) =>
      var (job, p) := (s.txns[t].job, s.txns[t].phase);
      if ReadPermits(s.users, job, p.readSender, p.readRecipient) then
        Enter(s, t, Writing(p.payee, p.recipient, p.readSender, p.readRecipient, s.users))
      else Enter(s, t, Denying)
    case Commit(t) =>
      var (job, p) := (s.txns[t].job, s.txns[t].phase);
      if p.Writing? then
        Enter(s, t, Ended).(tables := WriteBack(l, job, p.recipient, p.readSender, p.readRecipient),
                            effects := s.effects + [Posted(job, p.users)])
      else
        Enter(s, t, Ended).(tables := StoreDenial(l, job.sender, job.key, job.payload).0, effects := s.effects + [Refused(job)])
    case Rollback(t) => Enter(s, t, Ended)
    case ChangeUsers(users) => s.(users := users)
    case Other(c) => s.(tables := LedgerInvariant.Step(l, c), effects := s.effects + [Atomic(c)])
  }

  // ---------- Serial execution ----------

  predicate Fresh201(outcome: Outcome) {
    outcome.Replied? && outcome.status == 201 && !outcome.replayed
  }

  /** A job executed alone, with some users. */
  function Alone(l: Tables, users: seq<User>, job: Job): (Tables, Outcome) {
    ExecuteOnce(l, users, job.user, job.name, job.cents, job.key, job.payload)
  }

  /** A posted effect is a transfer by name that succeeds where it stands. Both kinds of transfer need
      OPEN, so none commits under a block. */
  predicate Serializable(l: Tables, e: Effect) {
    match e
    case Posted(job, users) =>
      && FindAccount(l.accounts, job.user) == Some(job.sender)
      && Fresh201(Alone(l, users, job).1)
      && (job.sender, job.key) !in l.requests && l.safety.Open?
    case Refused(job) => (job.sender, job.key) !in l.requests && l.safety.Open?
    case Atomic(c) => LedgerInvariant.WellFormed(c) && !LedgerInvariant.IsTransfer(c)
  }

  /** The effect executed alone. */
  function Execute(l: Tables, e: Effect): Tables
    requires Serializable(l, e)
  {
    match e
    case Posted(job, users) => Alone(l, users, job).0
    case Refused(job) => StoreDenial(l, job.sender, job.key, job.payload).0
    case Atomic(c) => LedgerInvariant.Step(l, c)
  }

  /** Executing effects one after the other, each allowed where it stands, ends in l. */
  ghost predicate SerialRun(start: Tables, effects: seq<Effect>, l: Tables)
    decreases |effects|
  {
    if effects == [] then l == start
    else
      var n := |effects| - 1;
      exists before :: SerialRun(start, effects[..n], before) && Serializable(before, effects[n]) && Execute(before, effects[n]) == l
  }

  // ---------- The locking invariant ----------

  predicate PastLook(x: Txn) {
    !x.phase.Ready? && !x.phase.Keyed? && !x.phase.Ended?
  }

  /** What a transaction read is still true of the committed rows. */
  predicate StillTrue(l: Tables, x: Txn)
    requires InTables(l, x)
  {
    && (PastLook(x) ==> (x.job.sender, x.job.key) !in l.requests && l.safety.Open?)
    && (match x.phase
        case Locked(_, r, a, b) => l.accounts[x.job.sender] == a && l.accounts[r] == b
        case Writing(_, r, a, b, users) =>
          l.accounts[x.job.sender] == a && l.accounts[r] == b && ReadPermits(users, x.job, a, b)
        case _ => true)
  }

  /** The payee still is the user of that name; once the checks are made, in the table they saw. */
  predicate Named(users: seq<User>, x: Txn) {
    match x.phase
    case Aimed(p, _) => FindUser(users, x.job.name) == Some(p)
    case HalfLocked(p, _, _) => FindUser(users, x.job.name) == Some(p)
    case Locked(p, _, _, _) => FindUser(users, x.job.name) == Some(p)
    case Writing(p, _, _, _, seen) => FindUser(seen, x.job.name) == Some(p)
    case _ => true
  }

  ghost predicate KeysExclusive(s: State) {
    forall t, u :: 0 <= t < u < |s.txns| && HoldsKey(s.txns[t], s.txns[u].job.sender, s.txns[u].job.key) ==>
      s.txns[u].phase.Ready? || s.txns[u].phase.Ended?
  }

  ghost predicate RowsExclusive(s: State) {
    forall t, u, a :: 0 <= t < u < |s.txns| && HoldsAccount(s.txns[t], a) ==> !HoldsAccount(s.txns[u], a)
  }

  ghost predicate Locking(s: State) {
    && Sited(s)
    && (forall t :: 0 <= t < |s.txns| ==> StillTrue(s.tables, s.txns[t]) && Named(s.users, s.txns[t]))
    && KeysExclusive(s) && RowsExclusive(s)
  }

  /** Under its locks, what a transaction is about to write is what executing its job alone would write. */
  lemma WriteBackIsTransfer(l: Tables, x: Txn)
    requires x.phase.Writing? && InTables(l, x) && StillTrue(l, x) && Named(x.phase.users, x)
    ensures var (after, outcome) := Alone(l, x.phase.users, x.job);
            Fresh201(outcome) && after == WriteBack(l, x.job, x.phase.recipient, x.phase.readSender, x.phase.readRecipient)
  {
    assert Permitted(l, x.phase.users, x.job.sender, x.phase.recipient, x.job.cents);
  }

  /** A commit from remembered rows is the atomic transfer by name on the tables as they are at the commit. */
  lemma CommitIsAtomic(s: State, t: nat)
    requires Locking(s) && t < |s.txns| && (s.txns[t].phase.Writing? || s.txns[t].phase.Denying?)
    ensures var e := if s.txns[t].phase.Writing? then Posted(s.txns[t].job, s.txns[t].phase.users) else Refused(s.txns[t].job);
            && Step(s, Commit(t)).effects == s.effects + [e]
            && Serializable(s.tables, e) && Step(s, Commit(t)).tables == Execute(s.tables, e)
  {
    assert StillTrue(s.tables, s.txns[t]) && Named(s.users, s.txns[t]);
    if s.txns[t].phase.Writing? {
      WriteBackIsTransfer(s.tables, s.txns[t]);
    }
  }

  // ---------- Every move keeps the locking invariant ----------

  /** A move leaves a row alone if it changes neither the row nor its place. */
  predicate RowKept(before: Tables, after: Tables, a: nat) {
    a < |before.accounts| <= |after.accounts| && after.accounts[a] == before.accounts[a]
  }

  lemma AtomicRows(s: State, c: LedgerInvariant.Command, a: nat)
    requires LedgerInvariant.WellFormed(c) && MayRunAtomically(s, c) && a < |s.tables.accounts|
    requires !Free(s, |s.txns|, a)
    ensures RowKept(s.tables, LedgerInvariant.Step(s.tables, c), a)
  {
  }

  lemma AtomicRequests(s: State, c: LedgerInvariant.Command)
    requires LedgerInvariant.WellFormed(c) && MayRunAtomically(s, c)
    ensures LedgerInvariant.Step(s.tables, c).requests == s.tables.requests
    ensures ExtendsUsers(s.tables.accounts, LedgerInvariant.Step(s.tables, c).accounts)
    ensures s.tables.safety.Open? && !LedgerInvariant.Step(s.tables, c).safety.Open? ==> c.Check?
  {
  }

  /** Account lookups survive whatever keeps the rows' places and users. */
  lemma SitesStay(before: Tables, after: Tables, x: Txn)
    requires InTables(before, x) && ExtendsUsers(before.accounts, after.accounts)
    ensures InTables(after, x)
  {
    FindAccountStable(before.accounts, after.accounts, x.job.user);
    if x.phase.Aimed? || x.phase.HalfLocked? || x.phase.Locked? || x.phase.Writing? {
      FindAccountStable(before.accounts, after.accounts, x.phase.payee);
    }
  }

  lemma CommitExtends(s: State, t: nat)
    requires Sited(s) && Possible(s, Commit(t))
    ensures ExtendsUsers(s.tables.accounts, Step(s, Commit(t)).tables.accounts)
  {
    assert InTables(s.tables, s.txns[t]);
  }

  lemma MoveExtends(s: State, e: Move)
    requires Sited(s) && Possible(s, e)
    ensures ExtendsUsers(s.tables.accounts, Step(s, e).tables.accounts)
  {
    if e.Other? {
      AtomicRequests(s, e.command);
    } else if e.Commit? {
      CommitExtends(s, e.t);
    }
  }

  /** The transactions that a move does not move keep what they read. */
  lemma BystanderKept(s: State, e: Move, u: nat)
    requires Locking(s) && Possible(s, e) && u < |s.txns|
    requires e.Commit? ==> u != e.t
    ensures InTables(Step(s, e).tables, s.txns[u]) && StillTrue(Step(s, e).tables, s.txns[u])
  {
    var x := s.txns[u];
    assert InTables(s.tables, x) && StillTrue(s.tables, x);
    MoveExtends(s, e);
    SitesStay(s.tables, Step(s, e).tables, x);
    if e.Other? {
      AtomicBystander(s, e.command, u);
    } else if e.Commit? {
      CommitBystander(s, e.t, u);
    }
  }

  lemma AtomicBystander(s: State, c: LedgerInvariant.Command, u: nat)
    requires Sited(s) && Possible(s, Other(c)) && u < |s.txns| && StillTrue(s.tables, s.txns[u])
    requires InTables(LedgerInvariant.Step(s.tables, c), s.txns[u])
    ensures StillTrue(LedgerInvariant.Step(s.tables, c), s.txns[u])
  {
    var x := s.txns[u];
    AtomicRequests(s, c);
    if x.phase.Locked? || x.phase.Writing? {
      assert HoldsAccount(x, x.job.sender) && HoldsAccount(x, x.phase.recipient);
      AtomicRows(s, c, x.job.sender);
      AtomicRows(s, c, x.phase.recipient);
    }
  }

  /** A commit writes two rows, both held by it, and one key, also held by it. */
  lemma CommitWrites(s: State, t: nat, a: nat, k: (nat, nat))
    requires Sited(s) && Possible(s, Commit(t))
    ensures !HoldsAccount(s.txns[t], a) && a < |s.tables.accounts| ==> RowKept(s.tables, Step(s, Commit(t)).tables, a)
    ensures k in Step(s, Commit(t)).tables.requests <==> k in s.tables.requests || k == (s.txns[t].job.sender, s.txns[t].job.key)
    ensures Step(s, Commit(t)).tables.safety == s.tables.safety
  {
    assert InTables(s.tables, s.txns[t]);
  }

  lemma CommitBystander(s: State, t: nat, u: nat)
    requires Locking(s) && Possible(s, Commit(t)) && u < |s.txns| && u != t
    requires InTables(Step(s, Commit(t)).tables, s.txns[u])
    ensures StillTrue(Step(s, Commit(t)).tables, s.txns[u])
  {
    var (x, y) := (s.txns[u], s.txns[t]);
    assert InTables(s.tables, x) && StillTrue(s.tables, x);
    if PastLook(x) {
      assert HoldsKey(x, x.job.sender, x.job.key) && HoldsKey(y, y.job.sender, y.job.key);
      assert x.job.sender != y.job.sender || x.job.key != y.job.key;
    }
    CommitWrites(s, t, x.job.sender, (x.job.sender, x.job.key));
    if x.phase.Locked? || x.phase.Writing? {
      assert HoldsAccount(x, x.job.sender) && HoldsAccount(x, x.phase.recipient);
      CommitWrites(s, t, x.phase.recipient, (x.job.sender, x.job.key));
    }
  }

  /** The new phase of a moved transaction, on tables that only a commit changes. */
  lemma MoverKept(s: State, e: Move, t: nat)
    requires Locking(s) && Possible(s, e) && t < |s.txns| && Step(s, e).txns[t] != s.txns[t]
    ensures InTables(Step(s, e).tables, Step(s, e).txns[t]) && StillTrue(Step(s, e).tables, Step(s, e).txns[t])
  {
    assert InTables(s.tables, s.txns[t]) && StillTrue(s.tables, s.txns[t]);
    if e.Commit? {
      MoveExtends(s, e);
      SitesStay(s.tables, Step(s, e).tables, Txn(s.txns[t].job, Ended));
    } else if e.Decide? {
      DeciderKept(s, t);
    }
  }

  lemma DeciderKept(s: State, t: nat)
    requires Sited(s) && Possible(s, Decide(t)) && StillTrue(s.tables, s.txns[t])
    ensures InTables(s.tables, Step(s, Decide(t)).txns[t]) && StillTrue(s.tables, Step(s, Decide(t)).txns[t])
  {
    assert InTables(s.tables, s.txns[t]);
  }

  lemma MoveKeepsReads(s: State, e: Move)
    requires Locking(s) && Possible(s, e)
    ensures Sited(Step(s, e))
    ensures forall t :: 0 <= t < |Step(s, e).txns| ==> StillTrue(Step(s, e).tables, Step(s, e).txns[t])
  {
    var after := Step(s, e);
    forall t | 0 <= t < |after.txns| ensures InTables(after.tables, after.txns[t]) && StillTrue(after.tables, after.txns[t]) {
      if t < |s.txns| {
        if after.txns[t] == s.txns[t] && !(e.Commit? && e.t == t) {
          BystanderKept(s, e, t);
        } else {
          MoverKept(s, e, t);
        }
      }
    }
  }

  /** Names only change hands by the one lookup. */
  lemma MoveKeepsNamed(s: State, e: Move, t: nat)
    requires Sited(s) && Possible(s, e) && t < |Step(s, e).txns|
    requires t < |s.txns| ==> Named(s.users, s.txns[t])
    ensures Named(Step(s, e).users, Step(s, e).txns[t])
  {
    if t < |s.txns| && e.ChangeUsers? && (s.txns[t].phase.Aimed? || s.txns[t].phase.HalfLocked? || s.txns[t].phase.Locked?) {
      FindUserStable(s.users, e.users, s.txns[t].job.name);
    }
  }

  /** A move grants a key or a row only to the transaction it moves, and only when free. */
  lemma GrantsKeys(s: State, e: Move, t: nat, sender: nat, key: nat)
    requires Sited(s) && Possible(s, e) && t < |Step(s, e).txns| && HoldsKey(Step(s, e).txns[t], sender, key)
    ensures t < |s.txns| && (HoldsKey(s.txns[t], sender, key) || (e.TakeKey? && e.t == t && KeyFree(s, sender, key)))
    ensures Step(s, e).txns[t].job == s.txns[t].job
  {
  }

  lemma GrantsRows(s: State, e: Move, t: nat, a: nat)
    requires Sited(s) && Possible(s, e) && t < |Step(s, e).txns| && HoldsAccount(Step(s, e).txns[t], a)
    ensures t < |s.txns|
    ensures HoldsAccount(s.txns[t], a) || (Free(s, t, a) && (e.LockFirst? || e.LockSecond?) && e.t == t)
  {
  }

  lemma MoveKeepsKeys(s: State, e: Move)
    requires Locking(s) && Possible(s, e)
    ensures KeysExclusive(Step(s, e))
  {
    var after := Step(s, e);
    forall t, u | 0 <= t < u < |after.txns| && HoldsKey(after.txns[t], after.txns[u].job.sender, after.txns[u].job.key)
      ensures after.txns[u].phase.Ready? || after.txns[u].phase.Ended?
    {
      var (sender, key) := (after.txns[u].job.sender, after.txns[u].job.key);
      GrantsKeys(s, e, t, sender, key);
      if HoldsKey(after.txns[u], sender, key) {
        GrantsKeys(s, e, u, sender, key);
      }
    }
  }

  lemma MoveKeepsRows(s: State, e: Move)
    requires Locking(s) && Possible(s, e)
    ensures RowsExclusive(Step(s, e))
  {
    var after := Step(s, e);
    forall t, u, a | 0 <= t < u < |after.txns| && HoldsAccount(after.txns[t], a) ensures !HoldsAccount(after.txns[u], a) {
      GrantsRows(s, e, t, a);
      if HoldsAccount(after.txns[u], a) {
        GrantsRows(s, e, u, a);
      }
    }
  }

  lemma MoveKeepsLocking(s: State, e: Move)
    requires Locking(s) && Possible(s, e)
    ensures Locking(Step(s, e))
  {
    MoveKeepsReads(s, e);
    MoveKeepsKeys(s, e);
    MoveKeepsRows(s, e);
    forall t | 0 <= t < |Step(s, e).txns| ensures Named(Step(s, e).users, Step(s, e).txns[t]) {
      MoveKeepsNamed(s, e, t);
    }
  }

  // ---------- Main results ----------

  ghost predicate PossibleRun(s: State, run: seq<Move>)
    decreases |run|
  {
    run == [] || (Sited(s) && Possible(s, run[0]) && PossibleRun(Step(s, run[0]), run[1..]))
  }

  ghost function Run(s: State, run: seq<Move>): State
    requires PossibleRun(s, run)
    decreases |run|
  {
    if run == [] then s else Run(Step(s, run[0]), run[1..])
  }

  /** A move either commits one effect, which is what that effect does alone, or changes no table. */
  lemma MoveIsSerial(start: Tables, s: State, e: Move)
    requires Locking(s) && Possible(s, e) && SerialRun(start, s.effects, s.tables)
    ensures SerialRun(start, Step(s, e).effects, Step(s, e).tables)
  {
    var after := Step(s, e);
    if e.Commit? {
      CommitIsAtomic(s, e.t);
    }
    if after.effects != s.effects {
      var n := |s.effects|;
      assert after.effects[..n] == s.effects;
      assert Serializable(s.tables, after.effects[n]) && Execute(s.tables, after.effects[n]) == after.tables;
    }
  }

  lemma {:induction false} RunIsSerial(start: Tables, s: State, run: seq<Move>)
    requires Locking(s) && PossibleRun(s, run) && SerialRun(start, s.effects, s.tables)
    ensures Locking(Run(s, run)) && SerialRun(start, Run(s, run).effects, Run(s, run).tables)
    decreases |run|
  {
    if run != [] {
      MoveKeepsLocking(s, run[0]);
      MoveIsSerial(start, s, run[0]);
      RunIsSerial(start, Step(s, run[0]), run[1..]);
    }
  }

  lemma {:induction false} SerialKeepsInv(start: Tables, effects: seq<Effect>, l: Tables)
    requires LedgerInvariant.Inv(start) && SerialRun(start, effects, l)
    ensures LedgerInvariant.Inv(l)
    decreases |effects|
  {
    if effects != [] {
      var n := |effects| - 1;
      var before :| SerialRun(start, effects[..n], before) && Serializable(before, effects[n]) && Execute(before, effects[n]) == l;
      SerialKeepsInv(start, effects[..n], before);
      match effects[n]
      case Posted(job, users) => LedgerInvariant.ExecuteKeepsInv(before, users, job.user, job.name, job.cents, job.key, job.payload);
      case Refused(job) => LedgerInvariant.DenialKeepsInv(before, job.sender, job.key, job.payload);
      case Atomic(c) => LedgerInvariant.StepKeepsInv(before, c);
    }
  }

  /** Every interleaving ends in tables that a serial execution of its commits reaches, in commit order,
      and so keeps the ledger invariant. */
  lemma InterleavingsAreSerializable(l: Tables, users: seq<User>, run: seq<Move>)
    requires LedgerInvariant.Inv(l) && PossibleRun(State(l, users, [], []), run)
    ensures var after := Run(State(l, users, [], []), run);
            SerialRun(l, after.effects, after.tables) && LedgerInvariant.Inv(after.tables)
  {
    RunIsSerial(l, State(l, users, [], []), run);
    var after := Run(State(l, users, [], []), run);
    SerialKeepsInv(l, after.effects, after.tables);
  }

  lemma ExecuteKeepsAnswers(l: Tables, e: Effect)
    requires Serializable(l, e)
    ensures forall k :: k in l.requests ==> k in Execute(l, e).requests
    ensures e.Posted? ==> (e.job.sender, e.job.key) !in l.requests && (e.job.sender, e.job.key) in Execute(l, e).requests
  {
  }

  /** The tables before the last effect of a serial run. */
  lemma BeforeLast(start: Tables, effects: seq<Effect>, l: Tables) returns (before: Tables)
    requires SerialRun(start, effects, l) && effects != []
    ensures SerialRun(start, effects[..|effects| - 1], before)
    ensures forall k :: k in before.requests ==> k in l.requests
    ensures var e := effects[|effects| - 1];
            e.Posted? ==> (e.job.sender, e.job.key) !in before.requests && (e.job.sender, e.job.key) in l.requests
  {
    var n := |effects| - 1;
    before :| SerialRun(start, effects[..n], before) && Serializable(before, effects[n]) && Execute(before, effects[n]) == l;
    ExecuteKeepsAnswers(before, effects[n]);
  }

  lemma {:induction false} AnsweredLasts(start: Tables, effects: seq<Effect>, l: Tables, k: nat)
    requires SerialRun(start, effects, l) && k < |effects| && effects[k].Posted?
    ensures (effects[k].job.sender, effects[k].job.key) in l.requests
    decreases |effects|
  {
    var n := |effects| - 1;
    var before := BeforeLast(start, effects, l);
    if k < n {
      AnsweredLasts(start, effects[..n], before, k);
    }
  }

  /** No two commits of an interleaving move money for the same sender and key. */
  lemma InterleavedMovesAtMostOnce(l: Tables, users: seq<User>, run: seq<Move>, i: nat, k: nat)
    requires PossibleRun(State(l, users, [], []), run)
    ensures var effects := Run(State(l, users, [], []), run).effects;
            i < k < |effects| && effects[i].Posted? && effects[k].Posted? ==>
              effects[i].job.sender != effects[k].job.sender || effects[i].job.key != effects[k].job.key
  {
    RunIsSerial(l, State(l, users, [], []), run);
    var after := Run(State(l, users, [], []), run);
    if i < k < |after.effects| && after.effects[i].Posted? && after.effects[k].Posted? {
      PostedOnce(l, after.effects, after.tables, i, k);
    }
  }

  lemma {:induction false} PostedOnce(start: Tables, effects: seq<Effect>, l: Tables, i: nat, k: nat)
    requires SerialRun(start, effects, l) && i < k < |effects| && effects[i].Posted? && effects[k].Posted?
    ensures effects[i].job.sender != effects[k].job.sender || effects[i].job.key != effects[k].job.key
    decreases |effects|
  {
    var before := BeforeLast(start, effects, l);
    var init := effects[..|effects| - 1];
    assert init[i] == effects[i];
    if k < |init| {
      assert init[k] == effects[k];
      PostedOnce(start, init, before, i, k);
    } else {
      AnsweredLasts(start, init, before, i);
    }
  }
}
