/** Clearing and reloading the problem bank (backend/src/db/seed_loader.cpp), and whole histories of the bank. */
module SeedLoader {
  import opened ProblemBank
  import opened Wrappers

  // ---- clearProblemBank: seven statements, each committed on its own ----

  const STATEMENTS := 7

  // ALTER TABLE ... AUTO_INCREMENT = 1: the least counter above every id in use, at least 1.
  function LeastCounter(ids: set<nat>, n: nat): nat {
    if n <= 1 then 1 else if n - 1 in ids then n else LeastCounter(ids, n - 1)
  }

  function CaseIds(db: Tables): set<nat> { set i | 0 <= i < |db.cases| :: db.cases[i].id }

  // Statement j, with the cascades of the deletes.
  function ClearStep(db: Tables, j: nat): Tables {
    if j == 0 then db.(links := {})
    else if j == 1 then db.(cases := [])
    else if j == 2 then db.(problems := map[], cases := [], links := {})
    else if j == 3 then db.(tags := map[], links := {})
    else if j == 4 then db.(nextProblem := LeastCounter(db.problems.Keys, db.nextProblem))
    else if j == 5 then db.(nextCase := LeastCounter(CaseIds(db), db.nextCase))
    else db.(nextTag := LeastCounter(db.tags.Keys, db.nextTag))
  }

  // The tables after the first n statements.
  function Cleared(db: Tables, n: nat): Tables {
    if n == 0 then db else ClearStep(Cleared(db, n - 1), n - 1)
  }

  // The first statement at or after j that the server fails, STATEMENTS if none does.
  function FirstFault(server: Server, j: nat): (f: nat)
    ensures f <= STATEMENTS && (f < STATEMENTS ==> j <= f && server(f).Fault?)
    ensures forall i | j <= i < f :: server(i).Ok?
    decreases STATEMENTS - j
  {
    if j >= STATEMENTS then STATEMENTS else if server(j).Fault? then j else FirstFault(server, j + 1)
  }

  const EMPTY := Tables(map[], [], map[], {}, 1, 1, 1)

  lemma {:induction false} UnusedCounter(n: nat)
    ensures LeastCounter({}, n) == 1
  {
    if n > 1 {
      UnusedCounter(n - 1);
    }
  }

  lemma {:induction false} ClearedShape(db: Tables, n: nat)
    requires n <= STATEMENTS
    ensures Cleared(db, n) == Tables(
              if n >= 3 then map[] else db.problems,
              if n >= 2 then [] else db.cases,
              if n >= 4 then map[] else db.tags,
              if n >= 1 then {} else db.links,
              if n >= 5 then 1 else db.nextProblem,
              if n >= 6 then 1 else db.nextCase,
              if n >= 7 then 1 else db.nextTag)
  {
    if n > 0 {
      ClearedShape(db, n - 1);
      var before := Cleared(db, n - 1);
      UnusedCounter(db.nextProblem);
      UnusedCounter(db.nextCase);
      UnusedCounter(db.nextTag);
      if n == 5 {
        assert before.problems.Keys == {};
      } else if n == 6 {
        assert CaseIds(before) == {};
      } else if n == 7 {
        assert before.tags.Keys == {};
      }
    }
  }

  /** A clear that meets no fault leaves empty tables and counters at 1, whatever was there. */
  lemma ClearEmpties(db: Tables)
    ensures Cleared(db, STATEMENTS) == EMPTY
  {
    ClearedShape(db, STATEMENTS);
  }

  /** A clear broken off after n statements keeps every key intact, but leaves problems without test cases
      exactly when it stops between emptying `testcases` and emptying a non-empty `problems`. */
  lemma BrokenOffClear(db: Tables, c: Collation, n: nat)
    requires WF(db, c) && HasCases(db) && n <= STATEMENTS
    ensures WF(Cleared(db, n), c)
    ensures HasCases(Cleared(db, n)) <==> n != 2 || db.problems == map[]
  {
    ClearedShape(db, n);
    if n == 2 && db.problems != map[] {
      var p :| p in db.problems;
      assert RowsOf(Cleared(db, 2).cases, p) == [];
    }
  }

  // ---- loadProblemsFromJson ----

  // An entry of the seed array: what parsing it gives.
  type Seed = seq<Option<ProblemInput>>

  // Creates the entries from index i on; the first that cannot be parsed or created ends the load.
  function Load(db: Tables, c: Collation, seed: Seed, servers: nat -> Server, i: nat): Outcome
    requires i <= |seed|
    decreases |seed| - i
  {
    if i == |seed| then Done(db, i)
    else
      match seed[i]
      case None => Failed(db)
      case Some(input) =>
        match Create(db, c, input, servers(i))
        case Failed(db1) => Failed(db1)
        case Done(db1, _) => Load(db1, c, seed, servers, i + 1)
  }

  // No file, no JSON or no array: None.  The bank is cleared before the file is read.
  function Reset(db: Tables, c: Collation, file: Option<Seed>, server: Server, servers: nat -> Server): Outcome {
    var stop := FirstFault(server, 0);
    if stop < STATEMENTS then Failed(Cleared(db, stop))
    else
      match file
      case None => Failed(Cleared(db, STATEMENTS))
      case Some(seed) => Load(Cleared(db, STATEMENTS), c, seed, servers, 0)
  }

  ghost predicate Loadable(c: Collation, entry: Option<ProblemInput>) {
    entry.Some? && Storable(c, entry.value)
  }

  // Entry i goes in: it can be parsed, the schema takes it, and no statement of its create meets a fault.
  ghost predicate GoesIn(c: Collation, seed: Seed, servers: nat -> Server, i: nat)
    requires i < |seed|
  {
    Loadable(c, seed[i]) && Answers(servers(i), 0, CreateLength(seed[i].value))
  }

  // The first entry from i on that does not go in, |seed| if all do.
  ghost function FirstRefused(c: Collation, seed: Seed, servers: nat -> Server, i: nat): (k: nat)
    requires i <= |seed|
    ensures i <= k <= |seed| && (k < |seed| ==> !GoesIn(c, seed, servers, k))
    ensures forall j | i <= j < k :: GoesIn(c, seed, servers, j)
    decreases |seed| - i
  {
    if i == |seed| || !GoesIn(c, seed, servers, i) then i else FirstRefused(c, seed, servers, i + 1)
  }

  // The first k entries as problems 1 .. k, as far as they can be parsed.
  ghost function SeedBank(c: Collation, seed: Seed, k: nat): map<nat, Problem>
    requires k <= |seed|
  {
    if k == 0 then map[]
    else
      var before := SeedBank(c, seed, k - 1);
      if seed[k - 1].None? then before else before[k := Described(c, seed[k - 1].value)]
  }

  // Entry i is problem i + 1, and there is no other.
  ghost predicate IsSeed(m: map<nat, Problem>, c: Collation, seed: Seed, k: nat)
    requires k <= |seed|
  {
    && (forall id :: id in m <==> 1 <= id <= k)
    && forall i | 0 <= i < k :: seed[i].Some? && m[i + 1] == Described(c, seed[i].value)
  }

  lemma {:induction false} SeedBankIsSeed(c: Collation, seed: Seed, k: nat)
    requires k <= |seed| && forall i | 0 <= i < k :: seed[i].Some?
    ensures IsSeed(SeedBank(c, seed, k), c, seed, k)
  {
    if k > 0 {
      SeedBankIsSeed(c, seed, k - 1);
    }
  }

  // k entries have been loaded into a bank that was empty.
  ghost predicate LoadedUpTo(db: Tables, c: Collation, seed: Seed, k: nat) {
    && WF(db, c) && db.nextProblem == k + 1
    && k <= |seed| && Bank(db, c) == SeedBank(c, seed, k)
  }

  // Creating a problem in a bank numbered up to k makes it number k + 1, or leaves the bank as it is.
  ghost predicate Extends(db: Tables, r: Outcome, c: Collation, k: nat, input: ProblemInput, server: Server) {
    && WF(r.db, c) && (r.Done? <==> Storable(c, input) && Answers(server, 0, CreateLength(input)))
    && (r.Done? ==> r.db.nextProblem == k + 2 && Bank(r.db, c) == Bank(db, c)[k + 1 := Described(c, input)])
    && (r.Failed? ==> Bank(r.db, c) == Bank(db, c))
  }

  lemma LoadOne(db: Tables, c: Collation, k: nat, input: ProblemInput, server: Server)
    requires WF(db, c) && db.nextProblem == k + 1
    ensures Extends(db, Create(db, c, input, server), c, k, input, server)
  {
    hide Create;
    hide WF;
    CreateRefinesInsert(db, c, input, server);
    var r := Create(db, c, input, server);
    if r.Failed? {
      SameRowsKeep(db, r.db, c);
    }
  }

  // r is how a load of the seed ends that stopped at entry k.
  ghost predicate StoppedAt(r: Outcome, c: Collation, seed: Seed, k: nat)
    requires k <= |seed|
  {
    WF(r.db, c) && (r.Done? <==> k == |seed|) && Bank(r.db, c) == SeedBank(c, seed, k)
  }

  lemma {:induction false} LoadEffect(db: Tables, c: Collation, seed: Seed, servers: nat -> Server, i: nat)
    requires i <= |seed| && LoadedUpTo(db, c, seed, i)
    ensures StoppedAt(Load(db, c, seed, servers, i), c, seed, FirstRefused(c, seed, servers, i))
    decreases |seed| - i
  {
    hide Create;
    hide WF;
    if i < |seed| && seed[i].Some? {
      var input := seed[i].value;
      var r := Create(db, c, input, servers(i));
      LoadOne(db, c, i, input, servers(i));
      assert Extends(db, r, c, i, input, servers(i));
      if GoesIn(c, seed, servers, i) {
        LoadEffect(r.db, c, seed, servers, i + 1);
      }
    }
  }

  lemma ResetEffect(db: Tables, c: Collation, seed: Seed, server: Server, servers: nat -> Server)
    requires FirstFault(server, 0) == STATEMENTS
    ensures StoppedAt(Reset(db, c, Some(seed), server, servers), c, seed, FirstRefused(c, seed, servers, 0))
  {
    ClearEmpties(db);
    assert Bank(EMPTY, c) == map[] == SeedBank(c, seed, 0);
    LoadEffect(EMPTY, c, seed, servers, 0);
  }

  /** From any tables, once the clear is through: if entry k is the first that cannot be parsed, that the schema
      refuses, or one of whose statements meets a fault, the bank holds exactly the entries before it, numbered
      from 1; the reset succeeds exactly when there is no such entry. */
  lemma ResetUpToFirstFailure(db: Tables, c: Collation, seed: Seed, server: Server, servers: nat -> Server)
    requires FirstFault(server, 0) == STATEMENTS
    ensures var r, k := Reset(db, c, Some(seed), server, servers), FirstRefused(c, seed, servers, 0);
            && WF(r.db, c) && (r.Done? <==> k == |seed|)
            && IsSeed(Bank(r.db, c), c, seed, k)
            && (k < |seed| && Loadable(c, seed[k]) ==> !NoFaults(servers(k)))
  {
    hide Reset, WF, Bank, IsSeed, SeedBank, Storable, Answers, NoFaults;
    var k := FirstRefused(c, seed, servers, 0);
    ResetEffect(db, c, seed, server, servers);
    forall i | 0 <= i < k ensures seed[i].Some? {
      assert GoesIn(c, seed, servers, i);
    }
    SeedBankIsSeed(c, seed, k);
    if k < |seed| && Loadable(c, seed[k]) {
      NoFaultsAnswers(servers(k), CreateLength(seed[k].value));
    }
  }

  lemma NoFaultsAnswers(server: Server, n: nat)
    ensures NoFaults(server) ==> Answers(server, 0, n)
  {
  }

  lemma {:induction false} RefusedWithoutFaults(c: Collation, seed: Seed, servers: nat -> Server, i: nat, k: nat)
    requires i <= k <= |seed| && forall j :: NoFaults(servers(j))
    requires (forall j | i <= j < k :: Loadable(c, seed[j])) && (k < |seed| ==> !Loadable(c, seed[k]))
    ensures FirstRefused(c, seed, servers, i) == k
    decreases k - i
  {
    assert NoFaults(servers(i));
    if i < k {
      RefusedWithoutFaults(c, seed, servers, i + 1, k);
    }
  }

  /** Reset is a function of the seed: from any tables and without faults, with the first k entries loadable and no
      more, the bank is exactly those k, numbered from 1; it succeeds when that is all of them. */
  lemma ResetIsTheSeed(db: Tables, c: Collation, seed: Seed, server: Server, servers: nat -> Server, k: nat)
    requires NoFaults(server) && forall j :: NoFaults(servers(j))
    requires k <= |seed| && forall j | 0 <= j < k :: Loadable(c, seed[j])
    requires k < |seed| ==> !Loadable(c, seed[k])
    ensures var r := Reset(db, c, Some(seed), server, servers);
            && WF(r.db, c) && (r.Done? <==> k == |seed|)
            && IsSeed(Bank(r.db, c), c, seed, k)
  {
    hide Reset, WF, Bank;
    RefusedWithoutFaults(c, seed, servers, 0, k);
    ResetUpToFirstFailure(db, c, seed, server, servers);
  }

  /** Two complete clears followed by loads that stop at the same entry give the same ids and contents, whatever was
      in the bank before either. */
  lemma ResetForgetsThePast(db: Tables, db': Tables, c: Collation, seed: Seed,
                            server: Server, servers: nat -> Server, server': Server, servers': nat -> Server)
    requires FirstFault(server, 0) == FirstFault(server', 0) == STATEMENTS
    requires FirstRefused(c, seed, servers, 0) == FirstRefused(c, seed, servers', 0)
    ensures var r, r' := Reset(db, c, Some(seed), server, servers), Reset(db', c, Some(seed), server', servers');
            (r.Done? <==> r'.Done?) && Bank(r.db, c) == Bank(r'.db, c)
  {
    hide Reset, WF, Bank;
    ResetEffect(db, c, seed, server, servers);
    ResetEffect(db', c, seed, server', servers');
  }

  /** A seed file that cannot be read leaves the bank empty. */
  lemma UnreadableSeedEmpties(db: Tables, c: Collation, server: Server, servers: nat -> Server)
    requires FirstFault(server, 0) == STATEMENTS
    ensures Reset(db, c, None, server, servers) == Failed(EMPTY)
  {
    ClearEmpties(db);
  }

  // ---- Histories ----

  // An UpdateOp may find its problem gone.  Reset runs with no other client.
  datatype Op =
    | CreateOp(input: ProblemInput, server: Server)
    | UpdateOp(pid: nat, input: ProblemInput, server: Server)
    | DeleteOp(pid: nat, reply: Reply)
    | ResetOp(file: Option<Seed>, server: Server, servers: nat -> Server)

  function Apply(db: Tables, c: Collation, op: Op): Outcome {
    match op
    case CreateOp(input, server) => Create(db, c, input, server)
    case UpdateOp(pid, input, server) => Update(db, c, pid, input, server)
    case DeleteOp(pid, reply) => DeleteProblem(db, pid, reply)
    case ResetOp(file, server, servers) => Reset(db, c, file, server, servers)
  }

  function Run(db: Tables, c: Collation, ops: seq<Op>): Tables {
    if ops == [] then db else Apply(Run(db, c, ops[..|ops| - 1]), c, ops[|ops| - 1]).db
  }

  // What the first n statements of a clear do to the map.
  ghost function PartlyCleared(m: map<nat, Problem>, n: nat): map<nat, Problem> {
    if n == 0 then m
    else if n == 1 then map p | p in m :: m[p].(tags := {})
    else if n == 2 then map p | p in m :: m[p].(tags := {}, cases := [])
    else map[]
  }

  // Whether an operation goes through.
  ghost predicate Succeeds(m: map<nat, Problem>, c: Collation, op: Op) {
    match op
    case CreateOp(input, server) => Storable(c, input) && Answers(server, 0, CreateLength(input))
    case UpdateOp(pid, input, server) =>
      && Answers(server, 0, UpdateLength(input))
      && if pid in m then Storable(c, input) else input.tags == [] && input.cases == []
    case DeleteOp(_, reply) => reply.Ok?
    case ResetOp(file, server, servers) =>
      && FirstFault(server, 0) == STATEMENTS
      && file.Some? && FirstRefused(c, file.value, servers, 0) == |file.value|
  }

  // The operations on a plain map; `id` is the number a create gets.
  ghost function Abstractly(m: map<nat, Problem>, c: Collation, op: Op, id: nat): map<nat, Problem> {
    match op
    case CreateOp(input, _) => if Succeeds(m, c, op) then m[id := Described(c, input)] else m
    case UpdateOp(pid, input, _) => if Succeeds(m, c, op) && pid in m then m[pid := Described(c, input)] else m
    case DeleteOp(pid, _) => if Succeeds(m, c, op) then m - {pid} else m
    case ResetOp(file, server, servers) =>
      var stop := FirstFault(server, 0);
      if stop < STATEMENTS then PartlyCleared(m, stop)
      else if file == None then map[]
      else SeedBank(c, file.value, FirstRefused(c, file.value, servers, 0))
  }

  lemma ClearedBank(db: Tables, c: Collation, n: nat)
    requires n <= STATEMENTS
    ensures Bank(Cleared(db, n), c) == PartlyCleared(Bank(db, c), n)
  {
    ClearedShape(db, n);
    hide Cleared;
    var db' := Cleared(db, n);
    if n == 1 || n == 2 {
      forall p | p in db.problems
        ensures ProblemOf(db', c, p) == Problem(db.problems[p], {}, if n == 1 then CasesOf(db, p) else [])
      {
        NoTagsOfNew(db', c, p);
      }
    }
  }

  lemma {:induction false} LoadKeepsWF(db: Tables, c: Collation, seed: Seed, servers: nat -> Server, i: nat)
    requires i <= |seed| && WF(db, c)
    ensures WF(Load(db, c, seed, servers, i).db, c)
    decreases |seed| - i
  {
    if i < |seed| && seed[i].Some? {
      CreateRefinesInsert(db, c, seed[i].value, servers(i));
      var r := Create(db, c, seed[i].value, servers(i));
      if r.Done? {
        LoadKeepsWF(r.db, c, seed, servers, i + 1);
      }
    }
  }

  lemma ResetKeepsWF(db: Tables, c: Collation, file: Option<Seed>, server: Server, servers: nat -> Server)
    requires WF(db, c)
    ensures WF(Reset(db, c, file, server, servers).db, c)
  {
    ClearedShape(db, FirstFault(server, 0));
    ClearEmpties(db);
    if file.Some? {
      LoadKeepsWF(EMPTY, c, file.value, servers, 0);
    }
  }

  // What an operation must have done: kept the tables intact, ended as it should, and changed the map as it should.
  ghost predicate Refines(db: Tables, r: Outcome, c: Collation, op: Op) {
    && WF(r.db, c)
    && (r.Done? <==> Succeeds(Bank(db, c), c, op))
    && (op.CreateOp? && r.Done? ==> r.id !in Bank(db, c))
    && forall id :: (op.CreateOp? && r.Done? ==> id == r.id) ==> Bank(r.db, c) == Abstractly(Bank(db, c), c, op, id)
  }

  lemma CreateOpRefines(db: Tables, c: Collation, op: Op)
    requires WF(db, c) && op.CreateOp?
    ensures Refines(db, Apply(db, c, op), c, op)
  {
    hide Create, WF, Bank, SameRows;
    var r := Create(db, c, op.input, op.server);
    CreateRefinesInsert(db, c, op.input, op.server);
    if r.Failed? {
      SameRowsKeep(db, r.db, c);
    }
  }

  lemma UpdateOpRefines(db: Tables, c: Collation, op: Op)
    requires WF(db, c) && op.UpdateOp?
    ensures Refines(db, Apply(db, c, op), c, op)
  {
    hide Update, WF, SameRows;
    var r := Update(db, c, op.pid, op.input, op.server);
    if op.pid in db.problems {
      UpdateRefinesReplace(db, c, op.pid, op.input, op.server);
    } else {
      UpdateOfVanished(db, c, op.pid, op.input, op.server);
    }
    if r.Failed? || op.pid !in db.problems {
      SameRowsKeep(db, r.db, c);
    }
  }

  lemma ResetOpRefines(db: Tables, c: Collation, op: Op)
    requires WF(db, c) && op.ResetOp?
    ensures Refines(db, Apply(db, c, op), c, op)
  {
    hide Load, WF, Bank;
    var stop := FirstFault(op.server, 0);
    ClearedBank(db, c, stop);
    ResetKeepsWF(db, c, op.file, op.server, op.servers);
    if stop == STATEMENTS && op.file.Some? {
      ResetEffect(db, c, op.file.value, op.server, op.servers);
    }
  }

  /** Every operation, under every pattern of failures, keeps the tables' integrity, goes through exactly when the map
      and the server allow it, and does to the map what the plain operation does. */
  lemma ApplyRefines(db: Tables, c: Collation, op: Op)
    requires WF(db, c)
    ensures Refines(db, Apply(db, c, op), c, op)
  {
    match op
    case CreateOp(_, _) => CreateOpRefines(db, c, op);
    case UpdateOp(_, _, _) => UpdateOpRefines(db, c, op);
    case DeleteOp(pid, reply) => DeleteRefinesRemove(db, c, pid, reply);
    case ResetOp(_, _, _) => ResetOpRefines(db, c, op);
  }

  // The numbers the operations of a history ended with; 0 for those that failed.
  ghost function Numbers(db: Tables, c: Collation, ops: seq<Op>): (ids: seq<nat>)
    ensures |ids| == |ops|
  {
    if ops == [] then []
    else
      var n := |ops| - 1;
      var r := Apply(Run(db, c, ops[..n]), c, ops[n]);
      Numbers(db, c, ops[..n]) + [if r.Done? then r.id else 0]
  }

  ghost function AbstractRun(m: map<nat, Problem>, c: Collation, ops: seq<Op>, ids: seq<nat>): map<nat, Problem>
    requires |ids| == |ops|
  {
    if ops == [] then m
    else
      var n := |ops| - 1;
      Abstractly(AbstractRun(m, c, ops[..n], ids[..n]), c, ops[n], ids[n])
  }

  /** Over every history the four tables are the map that the plain operations make. */
  lemma {:induction false} HistoryRefines(db: Tables, c: Collation, ops: seq<Op>)
    requires WF(db, c)
    ensures WF(Run(db, c, ops), c)
    ensures Bank(Run(db, c, ops), c) == AbstractRun(Bank(db, c), c, ops, Numbers(db, c, ops))
  {
    if ops != [] {
      hide WF, Bank, Apply, Abstractly, Succeeds;
      var n := |ops| - 1;
      var before := Run(db, c, ops[..n]);
      HistoryRefines(db, c, ops[..n]);
      ApplyRefines(before, c, ops[n]);
      var ids := Numbers(db, c, ops);
      assert ids[..n] == Numbers(db, c, ops[..n]);
      assert Bank(Apply(before, c, ops[n]).db, c) == Abstractly(Bank(before, c), c, ops[n], ids[n]);
    }
  }

  // Requests are validated before they reach the bank: at least one test case.  A reset counts when
  // its clear is not broken off between the second and the third statement.
  ghost predicate Validated(op: Op) {
    match op
    case CreateOp(input, _) => input.cases != []
    case UpdateOp(_, input, _) => input.cases != []
    case DeleteOp(_, _) => true
    case ResetOp(file, server, _) =>
      && FirstFault(server, 0) != 2
      && (file.Some? ==> forall i | 0 <= i < |file.value| && file.value[i].Some? :: file.value[i].value.cases != [])
  }

  lemma TouchKeepsCases(db: Tables, db': Tables, c: Collation, pid: nat)
    requires WF(db, c) && HasCases(db) && OnlyTouches(db, db', pid)
    requires pid in db'.problems ==> CasesOf(db', pid) != []
    ensures HasCases(db')
  {
    forall p | p in db'.problems ensures RowsOf(db'.cases, p) != [] {
      if p != pid {
        assert SameView(db, db', p);
      }
    }
  }

  lemma CreateKeepsCases(db: Tables, c: Collation, input: ProblemInput, server: Server)
    requires WF(db, c) && HasCases(db) && input.cases != []
    ensures HasCases(Create(db, c, input, server).db)
  {
    CreateRefinesInsert(db, c, input, server);
    var r := Create(db, c, input, server);
    if r.Done? {
      assert Bank(r.db, c)[r.id] == Described(c, input);
      TouchKeepsCases(db, r.db, c, r.id);
    } else {
      SameRowsKeep(db, r.db, c);
    }
  }

  lemma UpdateKeepsCases(db: Tables, c: Collation, pid: nat, input: ProblemInput, server: Server)
    requires WF(db, c) && HasCases(db) && input.cases != []
    ensures HasCases(Update(db, c, pid, input, server).db)
  {
    var r := Update(db, c, pid, input, server);
    if pid in db.problems {
      UpdateRefinesReplace(db, c, pid, input, server);
    } else {
      UpdateOfVanished(db, c, pid, input, server);
    }
    if r.Done? && pid in db.problems {
      assert Bank(r.db, c)[pid] == Described(c, input);
      TouchKeepsCases(db, r.db, c, pid);
    } else {
      SameRowsKeep(db, r.db, c);
    }
  }

  lemma {:induction false} LoadKeepsCases(db: Tables, c: Collation, seed: Seed, servers: nat -> Server, i: nat)
    requires i <= |seed| && WF(db, c) && HasCases(db)
    requires forall j | 0 <= j < |seed| && seed[j].Some? :: seed[j].value.cases != []
    ensures HasCases(Load(db, c, seed, servers, i).db)
    decreases |seed| - i
  {
    if i < |seed| && seed[i].Some? {
      CreateRefinesInsert(db, c, seed[i].value, servers(i));
      CreateKeepsCases(db, c, seed[i].value, servers(i));
      var r := Create(db, c, seed[i].value, servers(i));
      if r.Done? {
        LoadKeepsCases(r.db, c, seed, servers, i + 1);
      }
    }
  }

  lemma ApplyKeepsCases(db: Tables, c: Collation, op: Op)
    requires WF(db, c) && HasCases(db) && Validated(op)
    ensures HasCases(Apply(db, c, op).db)
  {
    match op
    case CreateOp(input, server) => CreateKeepsCases(db, c, input, server);
    case UpdateOp(pid, input, server) => UpdateKeepsCases(db, c, pid, input, server);
    case DeleteOp(pid, reply) =>
      DeleteRefinesRemove(db, c, pid, reply);
      if reply.Ok? {
        TouchKeepsCases(db, DeleteProblem(db, pid, reply).db, c, pid);
      }
    case ResetOp(file, server, servers) =>
      BrokenOffClear(db, c, FirstFault(server, 0));
      ClearEmpties(db);
      if file.Some? {
        LoadKeepsCases(EMPTY, c, file.value, servers, 0);
      }
  }

  /** Integrity over every history from an empty bank: keys, unique names, and a test case for every problem. */
  lemma {:induction false} HistoryKeepsIntegrity(c: Collation, ops: seq<Op>)
    requires forall op | op in ops :: Validated(op)
    ensures WF(Run(EMPTY, c, ops), c) && HasCases(Run(EMPTY, c, ops))
  {
    if ops != [] {
      var n := |ops| - 1;
      HistoryKeepsIntegrity(c, ops[..n]);
      assert ops[n] in ops;
      ApplyRefines(Run(EMPTY, c, ops[..n]), c, ops[n]);
      ApplyKeepsCases(Run(EMPTY, c, ops[..n]), c, ops[n]);
    }
  }
}
