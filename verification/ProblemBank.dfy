/**
 The problem bank (backend/src/db/problem_dao.cpp over the tables of backend/sql/schema.sql).

 Four tables with their keys, cascades and auto-increment counters.  A statement either has its
 effect or fails and has none; it fails when a constraint of the schema refuses it or when the
 server says so.  Transactions are isolated: no other statement runs between their first and last.
 */
module ProblemBank {
  import opened Wrappers

  datatype Difficulty = Easy | Medium | Hard

  datatype ProblemRow =
    ProblemRow(title: string, description: string, difficulty: Difficulty, timeLimitMs: nat, memoryLimitMb: nat)

  datatype CaseData = CaseData(input: string, expected: string, isSample: bool, score: nat)

  datatype CaseRow = CaseRow(id: nat, problemId: nat, data: CaseData)

  datatype ProblemInput = ProblemInput(row: ProblemRow, tags: seq<string>, cases: seq<CaseData>)

  // `cases` is in primary-key order; `problems` and `tags` are keyed by id, `links` by both columns.
  datatype Tables = Tables(
    problems: map<nat, ProblemRow>,
    cases: seq<CaseRow>,
    tags: map<nat, string>,
    links: set<(nat, nat)>,
    nextProblem: nat,
    nextCase: nat,
    nextTag: nat)

  // The collation as a sort key: names with equal keys are equal to the database.
  type Collation = string -> real

  // What the server does with a statement.  An insert that hits a duplicate or fails may burn `gap` ids.
  datatype Reply = Ok(gap: nat) | Fault(gap: nat)

  // The replies to an operation's statements, by their number within the operation.
  type Server = nat -> Reply

  ghost predicate NoFaults(server: Server) { forall k :: server(k).Ok? }

  // The n statements from number k on meet no fault.
  ghost predicate Answers(server: Server, k: nat, n: nat) { forall i: nat | k <= i < k + n :: server(i).Ok? }

  lemma AnswersSplit(server: Server, k: nat, m: nat, n: nat)
    ensures Answers(server, k, m + n) <==> Answers(server, k, m) && Answers(server, k + m, n)
  {
  }

  lemma AnswersOne(server: Server, k: nat)
    ensures Answers(server, k, 1) <==> server(k).Ok?
  {
  }

  // How an operation ends; a failed one is shown with the tables as the failing statement left them.
  datatype Outcome = Done(db: Tables, id: nat) | Failed(db: Tables)

  // ---- Reading tables ----

  // The rows of one problem, in id order.
  function RowsOf(rows: seq<CaseRow>, pid: nat): seq<CaseRow> {
    if rows == [] then []
    else
      var last := rows[|rows| - 1];
      RowsOf(rows[..|rows| - 1], pid) + if last.problemId == pid then [last] else []
  }

  function Without(rows: seq<CaseRow>, pid: nat): seq<CaseRow> {
    if rows == [] then []
    else
      var last := rows[|rows| - 1];
      Without(rows[..|rows| - 1], pid) + if last.problemId == pid then [] else [last]
  }

  function Data(rows: seq<CaseRow>): seq<CaseData> {
    if rows == [] then [] else Data(rows[..|rows| - 1]) + [rows[|rows| - 1].data]
  }

  // The test cases of a problem as a caller sees them.
  function CasesOf(db: Tables, pid: nat): seq<CaseData> { Data(RowsOf(db.cases, pid)) }

  // The ids of the tags linked to a problem.
  function TagIds(db: Tables, pid: nat): set<nat> {
    set t | t in db.tags && (pid, t) in db.links
  }

  function TagKeys(db: Tables, c: Collation, pid: nat): set<real> {
    set t | t in TagIds(db, pid) :: c(db.tags[t])
  }

  // The id below n of a tag the database takes for the same name.
  function TagNamed(db: Tables, c: Collation, name: string, n: nat): Option<nat> {
    if n == 0 then None
    else if n - 1 in db.tags && c(db.tags[n - 1]) == c(name) then Some(n - 1)
    else TagNamed(db, c, name, n - 1)
  }

  // ---- Integrity ----

  ghost predicate Ascending(rows: seq<CaseRow>) {
    forall i, j | 0 <= i < j < |rows| :: rows[i].id < rows[j].id
  }

  predicate GoodRow(row: ProblemRow) {
    row.timeLimitMs > 0 && row.memoryLimitMb > 0 && |row.title| <= 255
  }

  // Primary keys below their counters, foreign keys, unique tag names, checks.
  ghost predicate WF(db: Tables, c: Collation) {
    && (forall p | p in db.problems :: p < db.nextProblem && GoodRow(db.problems[p]))
    && Ascending(db.cases)
    && (forall r | r in db.cases :: r.id < db.nextCase && r.problemId in db.problems)
    && (forall t | t in db.tags :: t < db.nextTag)
    && (forall s, t | s in db.tags && t in db.tags && c(db.tags[s]) == c(db.tags[t]) :: s == t)
    && (forall l | l in db.links :: l.0 in db.problems && l.1 in db.tags)
  }

  ghost predicate HasCases(db: Tables) {
    forall p | p in db.problems :: RowsOf(db.cases, p) != []
  }

  // The two states hold the same rows; only auto-increment counters may have moved on.
  ghost predicate SameRows(db: Tables, db': Tables) {
    && db'.problems == db.problems && db'.cases == db.cases && db'.tags == db.tags && db'.links == db.links
    && CountersGrow(db, db')
  }

  ghost predicate CountersGrow(db: Tables, db': Tables) {
    db.nextProblem <= db'.nextProblem && db.nextCase <= db'.nextCase && db.nextTag <= db'.nextTag
  }

  // Nothing that belongs to problem q differs.
  ghost predicate SameView(db: Tables, db': Tables, q: nat) {
    && (q in db'.problems <==> q in db.problems)
    && (q in db.problems ==> db'.problems[q] == db.problems[q])
    && RowsOf(db'.cases, q) == RowsOf(db.cases, q)
    && (forall t :: (q, t) in db'.links <==> (q, t) in db.links)
  }

  ghost predicate TagsKept(db: Tables, db': Tables) {
    forall t | t in db.tags :: t in db'.tags && db'.tags[t] == db.tags[t]
  }

  // An operation on one problem: names stay, counters grow, other problems are as they were.
  ghost predicate OnlyTouches(db: Tables, db': Tables, pid: nat) {
    && TagsKept(db, db') && CountersGrow(db, db')
    && forall q | q != pid :: SameView(db, db', q)
  }

  // ---- Statements ----

  function InsertProblem(db: Tables, row: ProblemRow, reply: Reply): Outcome {
    if reply.Fault? || !GoodRow(row) then Failed(db.(nextProblem := db.nextProblem + reply.gap))
    else
      Done(db.(problems := db.problems[db.nextProblem := row], nextProblem := db.nextProblem + 1), db.nextProblem)
  }

  // INSERT INTO tags ... ON DUPLICATE KEY UPDATE id = LAST_INSERT_ID(id).
  function UpsertTag(db: Tables, c: Collation, name: string, reply: Reply): Outcome {
    if reply.Fault? || |name| > 64 then Failed(db.(nextTag := db.nextTag + reply.gap))
    else
      match TagNamed(db, c, name, db.nextTag)
      case Some(t) => Done(db.(nextTag := db.nextTag + reply.gap), t)
      case None => Done(db.(tags := db.tags[db.nextTag := name], nextTag := db.nextTag + 1), db.nextTag)
  }

  function InsertLink(db: Tables, pid: nat, tid: nat, reply: Reply): Outcome {
    if reply.Fault? || (pid, tid) in db.links || pid !in db.problems || tid !in db.tags then Failed(db)
    else Done(db.(links := db.links + {(pid, tid)}), tid)
  }

  function InsertCase(db: Tables, pid: nat, data: CaseData, reply: Reply): Outcome {
    if reply.Fault? || pid !in db.problems then Failed(db.(nextCase := db.nextCase + reply.gap))
    else
      Done(db.(cases := db.cases + [CaseRow(db.nextCase, pid, data)], nextCase := db.nextCase + 1), db.nextCase)
  }

  // An UPDATE that matches no row succeeds and changes nothing.
  function UpdateRow(db: Tables, pid: nat, row: ProblemRow, reply: Reply): Outcome {
    if reply.Fault? then Failed(db)
    else if pid !in db.problems then Done(db, pid)
    else if !GoodRow(row) then Failed(db)
    else Done(db.(problems := db.problems[pid := row]), pid)
  }

  function DeleteLinks(db: Tables, pid: nat, reply: Reply): Outcome {
    if reply.Fault? then Failed(db)
    else Done(db.(links := set l | l in db.links && l.0 != pid), pid)
  }

  function DeleteCases(db: Tables, pid: nat, reply: Reply): Outcome {
    if reply.Fault? then Failed(db) else Done(db.(cases := Without(db.cases, pid)), pid)
  }

  // DELETE FROM problems WHERE id = pid, with both cascades.
  function DeleteProblem(db: Tables, pid: nat, reply: Reply): Outcome {
    if reply.Fault? then Failed(db)
    else
      Done(db.(problems := db.problems - {pid}, cases := Without(db.cases, pid),
               links := set l | l in db.links && l.0 != pid), pid)
  }

  // InnoDB does not roll counters back.
  function Rollback(before: Tables, now: Tables): Tables {
    before.(nextProblem := now.nextProblem, nextCase := now.nextCase, nextTag := now.nextTag)
  }

  // ---- Operations ----

  function LinkTag(db: Tables, c: Collation, pid: nat, name: string, server: Server, k: nat): Outcome {
    match UpsertTag(db, c, name, server(k))
    case Failed(db1) => Failed(db1)
    case Done(db1, tid) => InsertLink(db1, pid, tid, server(k + 1))
  }

  // insertProblemTags: statements k, k+1 for the first tag, and so on.
  function LinkTags(db: Tables, c: Collation, pid: nat, tags: seq<string>, server: Server, k: nat): Outcome
    decreases |tags|
  {
    if tags == [] then Done(db, pid)
    else
      match LinkTag(db, c, pid, tags[0], server, k)
      case Failed(db1) => Failed(db1)
      case Done(db1, _) => LinkTags(db1, c, pid, tags[1..], server, k + 2)
  }

  // insertTestcases.
  function InsertCases(db: Tables, pid: nat, cases: seq<CaseData>, server: Server, k: nat): Outcome
    decreases |cases|
  {
    if cases == [] then Done(db, pid)
    else
      match InsertCase(db, pid, cases[0], server(k))
      case Failed(db1) => Failed(db1)
      case Done(db1, _) => InsertCases(db1, pid, cases[1..], server, k + 1)
  }

  // COMMIT, or the rollback the Transaction's destructor does.
  function Finish(before: Tables, outcome: Outcome, pid: nat, commit: Reply): Outcome {
    match outcome
    case Failed(db) => Failed(Rollback(before, db))
    case Done(db, _) => if commit.Fault? then Failed(Rollback(before, db)) else Done(db, pid)
  }

  // Links, then test cases, from statement k on.
  function Fill(db: Tables, c: Collation, pid: nat, input: ProblemInput, server: Server, k: nat): Outcome {
    match LinkTags(db, c, pid, input.tags, server, k)
    case Failed(db1) => Failed(db1)
    case Done(db1, _) => InsertCases(db1, pid, input.cases, server, k + 2 * |input.tags|)
  }

  function CreateBody(db: Tables, c: Collation, input: ProblemInput, server: Server): Outcome {
    match InsertProblem(db, input.row, server(1))
    case Failed(db1) => Failed(db1)
    case Done(db1, pid) => Fill(db1, c, pid, input, server, 2)
  }

  function Create(db: Tables, c: Collation, input: ProblemInput, server: Server): Outcome {
    if server(0).Fault? then Failed(db)
    else
      Finish(db, CreateBody(db, c, input, server), db.nextProblem,
             server(2 + 2 * |input.tags| + |input.cases|))
  }

  // The first half of replaceTagsAndTestcases, from statement k on.
  function ReplaceTags(db: Tables, c: Collation, pid: nat, tags: seq<string>, server: Server, k: nat): Outcome {
    match DeleteLinks(db, pid, server(k))
    case Failed(db1) => Failed(db1)
    case Done(db1, _) => LinkTags(db1, c, pid, tags, server, k + 1)
  }

  // The second half.
  function ReplaceCases(db: Tables, pid: nat, cases: seq<CaseData>, server: Server, k: nat): Outcome {
    match DeleteCases(db, pid, server(k))
    case Failed(db1) => Failed(db1)
    case Done(db1, _) => InsertCases(db1, pid, cases, server, k + 1)
  }

  function Replace(db: Tables, c: Collation, pid: nat, input: ProblemInput, server: Server, k: nat): Outcome {
    match ReplaceTags(db, c, pid, input.tags, server, k)
    case Failed(db1) => Failed(db1)
    case Done(db1, _) => ReplaceCases(db1, pid, input.cases, server, k + 1 + 2 * |input.tags|)
  }

  function UpdateBody(db: Tables, c: Collation, pid: nat, input: ProblemInput, server: Server): Outcome {
    match UpdateRow(db, pid, input.row, server(1))
    case Failed(db1) => Failed(db1)
    case Done(db1, _) => Replace(db1, c, pid, input, server, 2)
  }

  // updateProblem's transaction; the problem may have gone since the existence check.
  function Update(db: Tables, c: Collation, pid: nat, input: ProblemInput, server: Server): Outcome {
    if server(0).Fault? then Failed(db)
    else
      Finish(db, UpdateBody(db, c, pid, input, server), pid, server(4 + 2 * |input.tags| + |input.cases|))
  }

  // ---- Lemmas on rows ----

  lemma RowsOfSnoc(rows: seq<CaseRow>, r: CaseRow, pid: nat)
    ensures RowsOf(rows + [r], pid) == RowsOf(rows, pid) + if r.problemId == pid then [r] else []
  {
    assert (rows + [r])[..|rows|] == rows;
  }

  lemma {:induction false} RowsOfWithout(rows: seq<CaseRow>, pid: nat, q: nat)
    ensures RowsOf(Without(rows, pid), q) == if q == pid then [] else RowsOf(rows, q)
  {
    if rows != [] {
      var n := |rows| - 1;
      RowsOfWithout(rows[..n], pid, q);
      if rows[n].problemId == pid {
        assert Without(rows, pid) == Without(rows[..n], pid);
      } else {
        RowsOfSnoc(Without(rows[..n], pid), rows[n], q);
      }
    }
  }

  lemma {:induction false} WithoutKeepsOrder(rows: seq<CaseRow>, pid: nat)
    requires Ascending(rows)
    ensures Ascending(Without(rows, pid))
    ensures forall r | r in Without(rows, pid) :: r in rows && r.problemId != pid
  {
    if rows != [] {
      var n := |rows| - 1;
      WithoutKeepsOrder(rows[..n], pid);
      assert rows == rows[..n] + [rows[n]];
      forall r | r in Without(rows[..n], pid) ensures r.id < rows[n].id {
        var i :| 0 <= i < n && rows[i] == r;
      }
    }
  }

  lemma {:induction false} RowsOfMembers(rows: seq<CaseRow>, pid: nat)
    ensures forall r | r in RowsOf(rows, pid) :: r in rows && r.problemId == pid
  {
    if rows != [] {
      RowsOfMembers(rows[..|rows| - 1], pid);
      assert rows == rows[..|rows| - 1] + [rows[|rows| - 1]];
    }
  }

  lemma TouchTrans(a: Tables, b: Tables, d: Tables, pid: nat)
    requires OnlyTouches(a, b, pid) && OnlyTouches(b, d, pid)
    ensures OnlyTouches(a, d, pid)
  {
    forall q | q != pid ensures SameView(a, d, q) {
      assert SameView(a, b, q) && SameView(b, d, q);
    }
  }

  // ---- Lemmas on tags ----

  lemma {:induction false} TagNamedFinds(db: Tables, c: Collation, name: string, n: nat)
    ensures match TagNamed(db, c, name, n)
            case Some(t) => t < n && t in db.tags && c(db.tags[t]) == c(name)
            case None => forall t | t in db.tags && t < n :: c(db.tags[t]) != c(name)
  {
    if n > 0 {
      TagNamedFinds(db, c, name, n - 1);
    }
  }

  // An upsert that goes through leaves a tag with the name's key, and no two tags with one key.
  lemma UpsertEffect(db: Tables, c: Collation, name: string, reply: Reply)
    requires WF(db, c) && UpsertTag(db, c, name, reply).Done?
    ensures var Done(db', t) := UpsertTag(db, c, name, reply);
            && WF(db', c) && t in db'.tags && c(db'.tags[t]) == c(name)
            && db' == db.(tags := db'.tags, nextTag := db'.nextTag)
            && TagsKept(db, db') && db.nextTag <= db'.nextTag
  {
    TagNamedFinds(db, c, name, db.nextTag);
  }

  lemma SameTagKeys(db: Tables, db': Tables, c: Collation, q: nat)
    requires WF(db, c) && TagsKept(db, db')
    requires forall t :: (q, t) in db'.links <==> (q, t) in db.links
    ensures TagIds(db', q) == TagIds(db, q) && TagKeys(db', c, q) == TagKeys(db, c, q)
  {
    assert forall t | t in TagIds(db', q) :: (q, t) in db.links;
    assert TagIds(db', q) == TagIds(db, q);
  }

  lemma InsertLinkEffect(db: Tables, c: Collation, pid: nat, t: nat, reply: Reply)
    requires WF(db, c) && t in db.tags
    ensures var r := InsertLink(db, pid, t, reply);
            && CountersGrow(db, r.db)
            && (r.Done? ==>
                  && WF(r.db, c) && OnlyTouches(db, r.db, pid) && pid in db.problems
                  && r.db == db.(links := r.db.links)
                  && TagKeys(r.db, c, pid) == TagKeys(db, c, pid) + {c(db.tags[t])})
            && (r.Done? <==> reply.Ok? && pid in db.problems && c(db.tags[t]) !in TagKeys(db, c, pid))
  {
    LinkedIffKey(db, c, pid, t);
    var r := InsertLink(db, pid, t, reply);
    if r.Done? {
      assert TagIds(r.db, pid) == TagIds(db, pid) + {t};
      assert TagKeys(r.db, c, pid) == TagKeys(db, c, pid) + {c(db.tags[t])};
    }
  }

  lemma LinkTagEffect(db: Tables, c: Collation, pid: nat, name: string, server: Server, k: nat)
    requires WF(db, c)
    ensures var r := LinkTag(db, c, pid, name, server, k);
            && CountersGrow(db, r.db)
            && (r.Done? ==>
                  && WF(r.db, c) && OnlyTouches(db, r.db, pid) && pid in db.problems
                  && r.db.problems == db.problems && r.db.cases == db.cases
                  && TagKeys(r.db, c, pid) == TagKeys(db, c, pid) + {c(name)})
            && (r.Done? <==> && Answers(server, k, 2) && pid in db.problems
                             && |name| <= 64 && c(name) !in TagKeys(db, c, pid))
  {
    hide WF, InsertLink, TagKeys;
    if UpsertTag(db, c, name, server(k)).Done? {
      UpsertEffect(db, c, name, server(k));
      var Done(db1, t) := UpsertTag(db, c, name, server(k));
      SameTagKeys(db, db1, c, pid);
      InsertLinkEffect(db1, c, pid, t, server(k + 1));
      var r := LinkTag(db, c, pid, name, server, k);
      if r.Done? {
        TouchTrans(db, db1, r.db, pid);
      }
    }
  }

  lemma LinkedIffKey(db: Tables, c: Collation, pid: nat, t: nat)
    requires WF(db, c) && t in db.tags
    ensures (pid, t) in db.links <==> c(db.tags[t]) in TagKeys(db, c, pid)
  {
    if (pid, t) in db.links {
      assert t in TagIds(db, pid);
    }
  }

  function KeySet(c: Collation, tags: seq<string>): set<real> {
    set i | 0 <= i < |tags| :: c(tags[i])
  }

  // No two of the names are the same to the database, and each fits the column.
  ghost predicate DistinctTags(c: Collation, tags: seq<string>) {
    && (forall i, j | 0 <= i < j < |tags| :: c(tags[i]) != c(tags[j]))
    && (forall i | 0 <= i < |tags| :: |tags[i]| <= 64)
  }

  lemma KeySetCons(c: Collation, tags: seq<string>)
    requires tags != []
    ensures KeySet(c, tags) == {c(tags[0])} + KeySet(c, tags[1..])
    ensures DistinctTags(c, tags)
       <==> |tags[0]| <= 64 && c(tags[0]) !in KeySet(c, tags[1..]) && DistinctTags(c, tags[1..])
  {
    var rest := tags[1..];
    forall i | 0 < i < |tags| ensures tags[i] == rest[i - 1] {
    }
    forall x | x in KeySet(c, tags) ensures x in {c(tags[0])} + KeySet(c, rest) {
      var i :| 0 <= i < |tags| && c(tags[i]) == x;
      assert i > 0 ==> c(rest[i - 1]) == x;
    }
    forall x | x in KeySet(c, rest) ensures x in KeySet(c, tags) {
      var i :| 0 <= i < |rest| && c(rest[i]) == x;
      assert c(tags[i + 1]) == x;
    }
    if |tags[0]| <= 64 && c(tags[0]) !in KeySet(c, rest) && DistinctTags(c, rest) {
      forall i, j | 0 <= i < j < |tags| ensures c(tags[i]) != c(tags[j]) {
        assert tags[j] == rest[j - 1] && c(rest[j - 1]) in KeySet(c, rest);
        assert i > 0 ==> tags[i] == rest[i - 1];
      }
    }
  }

  lemma {:induction false} LinkTagsEffect(db: Tables, c: Collation, pid: nat, tags: seq<string>, server: Server, k: nat)
    requires WF(db, c)
    ensures var r := LinkTags(db, c, pid, tags, server, k);
            && CountersGrow(db, r.db)
            && (r.Done? ==>
                  && WF(r.db, c) && OnlyTouches(db, r.db, pid)
                  && r.db.problems == db.problems && r.db.cases == db.cases
                  && TagKeys(r.db, c, pid) == TagKeys(db, c, pid) + KeySet(c, tags)
                  && (tags != [] ==> pid in db.problems))
            && (pid in db.problems ==>
                  (r.Done? <==> && Answers(server, k, 2 * |tags|) && DistinctTags(c, tags)
                                && TagKeys(db, c, pid) !! KeySet(c, tags)))
    decreases |tags|
  {
    hide LinkTag, WF;
    if tags != [] {
      LinkTagEffect(db, c, pid, tags[0], server, k);
      KeySetCons(c, tags);
      var one := LinkTag(db, c, pid, tags[0], server, k);
      if one.Done? {
        LinkTagsEffect(one.db, c, pid, tags[1..], server, k + 2);
        var all := LinkTags(one.db, c, pid, tags[1..], server, k + 2);
        if all.Done? {
          TouchTrans(db, one.db, all.db, pid);
        }
      }
    }
  }

  // ---- Lemmas on test cases ----

  // db' is db with these test cases appended to problem pid, and nothing else changed.
  ghost predicate Inserted(db: Tables, db': Tables, c: Collation, pid: nat, cases: seq<CaseData>) {
    && WF(db', c) && OnlyTouches(db, db', pid)
    && db' == db.(cases := db'.cases, nextCase := db'.nextCase)
    && CasesOf(db', pid) == CasesOf(db, pid) + cases
  }

  lemma InsertedTrans(a: Tables, b: Tables, d: Tables, c: Collation, pid: nat, x: seq<CaseData>, y: seq<CaseData>)
    requires Inserted(a, b, c, pid, x) && Inserted(b, d, c, pid, y)
    ensures Inserted(a, d, c, pid, x + y)
  {
    TouchTrans(a, b, d, pid);
  }

  lemma AppendKeepsWF(db: Tables, c: Collation, pid: nat, data: CaseData)
    requires WF(db, c) && pid in db.problems
    ensures WF(db.(cases := db.cases + [CaseRow(db.nextCase, pid, data)], nextCase := db.nextCase + 1), c)
  {
    var row := CaseRow(db.nextCase, pid, data);
    forall i | 0 <= i < |db.cases| ensures db.cases[i].id < row.id {
      assert db.cases[i] in db.cases;
    }
  }

  lemma InsertCaseEffect(db: Tables, c: Collation, pid: nat, data: CaseData, reply: Reply)
    requires WF(db, c) && InsertCase(db, pid, data, reply).Done?
    ensures Inserted(db, InsertCase(db, pid, data, reply).db, c, pid, [data]) && pid in db.problems
  {
    var db' := InsertCase(db, pid, data, reply).db;
    var row := CaseRow(db.nextCase, pid, data);
    AppendKeepsWF(db, c, pid, data);
    forall q ensures RowsOf(db'.cases, q) == RowsOf(db.cases, q) + if q == pid then [row] else [] {
      RowsOfSnoc(db.cases, row, q);
    }
    assert (RowsOf(db.cases, pid) + [row])[..|RowsOf(db.cases, pid)|] == RowsOf(db.cases, pid);
  }

  lemma HeadAndTail<T>(xs: seq<T>)
    requires xs != []
    ensures xs == [xs[0]] + xs[1..]
  {
  }

  lemma TouchSelf(db: Tables, pid: nat)
    ensures OnlyTouches(db, db, pid)
  {
  }

  lemma {:induction false} InsertCasesEffect(db: Tables, c: Collation, pid: nat, cases: seq<CaseData>,
                                             server: Server, k: nat)
    requires WF(db, c)
    ensures var r := InsertCases(db, pid, cases, server, k);
            && CountersGrow(db, r.db)
            && (r.Done? ==> Inserted(db, r.db, c, pid, cases) && (cases != [] ==> pid in db.problems))
    decreases |cases|
  {
    if cases == [] {
      TouchSelf(db, pid);
    } else {
      var one := InsertCase(db, pid, cases[0], server(k));
      if one.Done? {
        InsertCaseEffect(db, c, pid, cases[0], server(k));
        InsertCasesEffect(one.db, c, pid, cases[1..], server, k + 1);
        var all := InsertCases(one.db, pid, cases[1..], server, k + 1);
        if all.Done? {
          InsertedTrans(db, one.db, all.db, c, pid, [cases[0]], cases[1..]);
          HeadAndTail(cases);
        }
      }
    }
  }

  lemma {:induction false} InsertCasesIff(db: Tables, pid: nat, cases: seq<CaseData>, server: Server, k: nat)
    requires pid in db.problems
    ensures InsertCases(db, pid, cases, server, k).Done? <==> Answers(server, k, |cases|)
    decreases |cases|
  {
    if cases != [] {
      hide Answers;
      AnswersSplit(server, k, 1, |cases| - 1);
      AnswersOne(server, k);
      var one := InsertCase(db, pid, cases[0], server(k));
      if one.Done? {
        InsertCasesIff(one.db, pid, cases[1..], server, k + 1);
      }
    }
  }

  // ---- The bank as a map ----

  datatype Problem = Problem(row: ProblemRow, tags: set<real>, cases: seq<CaseData>)

  // Tag names count up to the collation: a problem has the keys of its tags.
  ghost function ProblemOf(db: Tables, c: Collation, pid: nat): Problem
    requires pid in db.problems
  {
    Problem(db.problems[pid], TagKeys(db, c, pid), CasesOf(db, pid))
  }

  ghost function Bank(db: Tables, c: Collation): map<nat, Problem> {
    map p | p in db.problems :: ProblemOf(db, c, p)
  }

  function Described(c: Collation, input: ProblemInput): Problem {
    Problem(input.row, KeySet(c, input.tags), input.cases)
  }

  // What the schema accepts.
  ghost predicate Storable(c: Collation, input: ProblemInput) {
    && input.row.timeLimitMs > 0 && input.row.memoryLimitMb > 0 && |input.row.title| <= 255
    && DistinctTags(c, input.tags)
  }

  lemma SameProblem(db: Tables, db': Tables, c: Collation, q: nat)
    requires WF(db, c) && TagsKept(db, db') && SameView(db, db', q) && q in db.problems
    ensures ProblemOf(db', c, q) == ProblemOf(db, c, q)
  {
    SameTagKeys(db, db', c, q);
  }

  // db' is db with problem pid turned into p.
  ghost predicate Became(db: Tables, db': Tables, c: Collation, pid: nat, p: Problem) {
    && WF(db', c) && OnlyTouches(db, db', pid)
    && pid in db'.problems && ProblemOf(db', c, pid) == p
  }

  // If an operation on pid leaves it as p, it changes the map at pid alone.
  lemma BankUpdated(db: Tables, db': Tables, c: Collation, pid: nat, p: Problem)
    requires WF(db, c) && Became(db, db', c, pid, p)
    ensures Bank(db', c) == Bank(db, c)[pid := p]
  {
    var m, m' := Bank(db, c)[pid := p], Bank(db', c);
    forall q ensures (q in m' <==> q in m) && (q in m ==> m'[q] == m[q]) {
      if q != pid {
        OtherInBank(db, db', c, pid, q);
      }
    }
  }

  ghost predicate SameInBank(db: Tables, db': Tables, c: Collation, q: nat) {
    && (q in db'.problems <==> q in db.problems)
    && (q in db.problems ==> ProblemOf(db', c, q) == ProblemOf(db, c, q))
  }

  lemma OtherInBank(db: Tables, db': Tables, c: Collation, pid: nat, q: nat)
    requires WF(db, c) && OnlyTouches(db, db', pid) && q != pid
    ensures SameInBank(db, db', c, q)
  {
    assert SameView(db, db', q);
    if q in db.problems {
      SameProblem(db, db', c, q);
    }
  }

  lemma SameRowsKeep(db: Tables, db': Tables, c: Collation)
    requires WF(db, c) && SameRows(db, db')
    ensures WF(db', c) && Bank(db', c) == Bank(db, c)
    ensures HasCases(db) ==> HasCases(db')
  {
    forall q | q in db.problems ensures ProblemOf(db', c, q) == ProblemOf(db, c, q) {
      SameProblem(db, db', c, q);
    }
  }

  lemma NoTagsOfNew(db: Tables, c: Collation, pid: nat)
    requires forall t :: (pid, t) !in db.links
    ensures TagKeys(db, c, pid) == {}
  {
    assert TagIds(db, pid) == {};
  }

  lemma {:induction false} NoRowsOfNew(rows: seq<CaseRow>, pid: nat)
    requires forall r | r in rows :: r.problemId != pid
    ensures RowsOf(rows, pid) == []
  {
    if rows != [] {
      assert rows[|rows| - 1] in rows;
      NoRowsOfNew(rows[..|rows| - 1], pid);
    }
  }

  // ---- Create ----

  lemma InsertProblemEffect(db: Tables, c: Collation, row: ProblemRow, reply: Reply)
    requires WF(db, c) && InsertProblem(db, row, reply).Done?
    ensures var Done(db', pid) := InsertProblem(db, row, reply);
            && WF(db', c) && OnlyTouches(db, db', pid) && pid !in db.problems
            && pid in db'.problems && db'.problems[pid] == row
            && TagKeys(db', c, pid) == {} && RowsOf(db'.cases, pid) == []
  {
    var Done(db', pid) := InsertProblem(db, row, reply);
    NoTagsOfNew(db', c, pid);
    NoRowsOfNew(db'.cases, pid);
  }

  // Tags and test cases for a problem that has none yet.
  lemma FillEffect(db: Tables, c: Collation, pid: nat, input: ProblemInput, server: Server, k: nat)
    requires WF(db, c) && pid in db.problems && db.problems[pid] == input.row
    requires TagKeys(db, c, pid) == {} && CasesOf(db, pid) == []
    ensures var r := Fill(db, c, pid, input, server, k);
            && CountersGrow(db, r.db) && r.db.nextProblem == db.nextProblem
            && (r.Done? ==> Became(db, r.db, c, pid, Described(c, input)))
  {
    hide LinkTags, InsertCases, WF, Became, Inserted;
    LinkTagsEffect(db, c, pid, input.tags, server, k);
    LinksKeepCounter(db, c, pid, input.tags, server, k);
    var tagged := LinkTags(db, c, pid, input.tags, server, k);
    if tagged.Done? {
      var k' := k + 2 * |input.tags|;
      InsertCasesEffect(tagged.db, c, pid, input.cases, server, k');
      CasesKeepCounter(tagged.db, pid, input.cases, server, k');
      var r := InsertCases(tagged.db, pid, input.cases, server, k');
      if r.Done? {
        FilledBecomes(tagged.db, r.db, c, pid, input);
        BecameTrans(db, tagged.db, r.db, c, pid, Described(c, input));
      }
    }
  }

  lemma FillIff(db: Tables, c: Collation, pid: nat, input: ProblemInput, server: Server, k: nat)
    requires WF(db, c) && pid in db.problems && TagKeys(db, c, pid) == {}
    ensures Fill(db, c, pid, input, server, k).Done?
       <==> DistinctTags(c, input.tags) && Answers(server, k, 2 * |input.tags| + |input.cases|)
  {
    hide LinkTags, InsertCases, WF, OnlyTouches, Inserted, Answers, TagKeys, KeySet, DistinctTags;
    AnswersSplit(server, k, 2 * |input.tags|, |input.cases|);
    LinkTagsEffect(db, c, pid, input.tags, server, k);
    var tagged := LinkTags(db, c, pid, input.tags, server, k);
    if tagged.Done? {
      InsertCasesEffect(tagged.db, c, pid, input.cases, server, k + 2 * |input.tags|);
      InsertCasesIff(tagged.db, pid, input.cases, server, k + 2 * |input.tags|);
    }
  }

  lemma FilledBecomes(db: Tables, db': Tables, c: Collation, pid: nat, input: ProblemInput)
    requires WF(db, c) && pid in db.problems && db.problems[pid] == input.row
    requires TagKeys(db, c, pid) == KeySet(c, input.tags) && CasesOf(db, pid) == []
    requires Inserted(db, db', c, pid, input.cases)
    ensures Became(db, db', c, pid, Described(c, input))
  {
    SameTagKeys(db, db', c, pid);
  }

  lemma BecameTrans(a: Tables, b: Tables, d: Tables, c: Collation, pid: nat, p: Problem)
    requires OnlyTouches(a, b, pid) && Became(b, d, c, pid, p)
    ensures Became(a, d, c, pid, p)
  {
    TouchTrans(a, b, d, pid);
  }

  lemma CreateBodyEffect(db: Tables, c: Collation, input: ProblemInput, server: Server)
    requires WF(db, c)
    ensures var r := CreateBody(db, c, input, server);
            && CountersGrow(db, r.db)
            && (r.Done? ==>
                  && Became(db, r.db, c, db.nextProblem, Described(c, input))
                  && r.db.nextProblem == db.nextProblem + 1)
  {
    var one := InsertProblem(db, input.row, server(1));
    if one.Done? {
      InsertProblemEffect(db, c, input.row, server(1));
      FillEffect(one.db, c, one.id, input, server, 2);
      var r := Fill(one.db, c, one.id, input, server, 2);
      if r.Done? {
        BecameTrans(db, one.db, r.db, c, one.id, Described(c, input));
      }
    }
  }

  lemma {:induction false} CasesKeepCounter(db: Tables, pid: nat, cases: seq<CaseData>, server: Server, k: nat)
    ensures InsertCases(db, pid, cases, server, k).db.nextProblem == db.nextProblem
    decreases |cases|
  {
    if cases != [] {
      var one := InsertCase(db, pid, cases[0], server(k));
      if one.Done? {
        CasesKeepCounter(one.db, pid, cases[1..], server, k + 1);
      }
    }
  }

  lemma {:induction false} LinksKeepCounter(db: Tables, c: Collation, pid: nat, tags: seq<string>,
                                            server: Server, k: nat)
    ensures LinkTags(db, c, pid, tags, server, k).db.nextProblem == db.nextProblem
    decreases |tags|
  {
    if tags != [] {
      var one := LinkTag(db, c, pid, tags[0], server, k);
      if one.Done? {
        LinksKeepCounter(one.db, c, pid, tags[1..], server, k + 2);
      }
    }
  }

  // START TRANSACTION, n statements, COMMIT.
  lemma AnswersWrapped(server: Server, n: nat)
    ensures Answers(server, 0, n + 2) <==> server(0).Ok? && Answers(server, 1, n) && server(n + 1).Ok?
  {
  }

  // How many statements a create and an update send when none fails.
  function CreateLength(input: ProblemInput): nat { 3 + 2 * |input.tags| + |input.cases| }

  function UpdateLength(input: ProblemInput): nat { 5 + 2 * |input.tags| + |input.cases| }

  lemma CreateIff(db: Tables, c: Collation, input: ProblemInput, server: Server)
    requires WF(db, c)
    ensures Create(db, c, input, server).Done? <==> Storable(c, input) && Answers(server, 0, CreateLength(input))
  {
    hide WF, Fill, Answers, OnlyTouches, TagKeys, DistinctTags;
    var n := 2 * |input.tags| + |input.cases|;
    AnswersWrapped(server, 1 + n);
    AnswersSplit(server, 1, 1, n);
    AnswersOne(server, 1);
    var one := InsertProblem(db, input.row, server(1));
    if one.Done? {
      InsertProblemEffect(db, c, input.row, server(1));
      FillIff(one.db, c, one.id, input, server, 2);
    }
  }

  /** Creating a problem inserts exactly what was given under a new id, or changes no row at all; it goes through
      exactly when the schema accepts the input and no statement meets a fault. */
  lemma CreateRefinesInsert(db: Tables, c: Collation, input: ProblemInput, server: Server)
    requires WF(db, c)
    ensures var r := Create(db, c, input, server);
            && WF(r.db, c)
            && (r.Done? ==>
                  && r.id == db.nextProblem && r.id !in Bank(db, c) && r.db.nextProblem == r.id + 1
                  && Bank(r.db, c) == Bank(db, c)[r.id := Described(c, input)]
                  && OnlyTouches(db, r.db, r.id))
            && (r.Failed? ==> SameRows(db, r.db))
            && (r.Done? <==> Storable(c, input) && Answers(server, 0, CreateLength(input)))
  {
    CreateIff(db, c, input, server);
    CreateBodyEffect(db, c, input, server);
    hide CreateBody, Answers, Storable, CreateLength;
    var r := Create(db, c, input, server);
    if r.Done? {
      BankUpdated(db, r.db, c, r.id, Described(c, input));
    } else if server(0).Ok? {
      SameRowsKeep(db, r.db, c);
    }
  }

  // ---- Update ----

  lemma DeleteLinksEffect(db: Tables, c: Collation, pid: nat, reply: Reply)
    requires WF(db, c) && DeleteLinks(db, pid, reply).Done?
    ensures var db' := DeleteLinks(db, pid, reply).db;
            && WF(db', c) && OnlyTouches(db, db', pid) && TagKeys(db', c, pid) == {}
            && db' == db.(links := db'.links)
  {
    NoTagsOfNew(DeleteLinks(db, pid, reply).db, c, pid);
  }

  lemma DeleteCasesEffect(db: Tables, c: Collation, pid: nat, reply: Reply)
    requires WF(db, c) && DeleteCases(db, pid, reply).Done?
    ensures var db' := DeleteCases(db, pid, reply).db;
            && WF(db', c) && OnlyTouches(db, db', pid) && RowsOf(db'.cases, pid) == []
            && db' == db.(cases := db'.cases)
  {
    var db' := DeleteCases(db, pid, reply).db;
    WithoutKeepsOrder(db.cases, pid);
    forall q ensures RowsOf(db'.cases, q) == if q == pid then [] else RowsOf(db.cases, q) {
      RowsOfWithout(db.cases, pid, q);
    }
  }

  lemma UpdateRowEffect(db: Tables, c: Collation, pid: nat, row: ProblemRow, reply: Reply)
    requires WF(db, c) && UpdateRow(db, pid, row, reply).Done?
    ensures var db' := UpdateRow(db, pid, row, reply).db;
            && WF(db', c) && OnlyTouches(db, db', pid) && db' == db.(problems := db'.problems)
            && (pid in db.problems ==> pid in db'.problems && db'.problems[pid] == row)
            && (pid !in db.problems ==> db' == db)
  {
  }

  lemma ReplaceTagsEffect(db: Tables, c: Collation, pid: nat, tags: seq<string>, server: Server, k: nat)
    requires WF(db, c) && pid in db.problems
    ensures var r := ReplaceTags(db, c, pid, tags, server, k);
            && CountersGrow(db, r.db)
            && (r.Done? ==>
                  && WF(r.db, c) && OnlyTouches(db, r.db, pid) && r.db.problems == db.problems
                  && TagKeys(r.db, c, pid) == KeySet(c, tags))
            && (r.Done? <==> DistinctTags(c, tags) && Answers(server, k, 1 + 2 * |tags|))
  {
    hide WF, Answers, SameView;
    AnswersSplit(server, k, 1, 2 * |tags|);
    AnswersOne(server, k);
    var bare := DeleteLinks(db, pid, server(k));
    if bare.Done? {
      DeleteLinksEffect(db, c, pid, server(k));
      LinkTagsEffect(bare.db, c, pid, tags, server, k + 1);
      var r := LinkTags(bare.db, c, pid, tags, server, k + 1);
      if r.Done? {
        TouchTrans(db, bare.db, r.db, pid);
      }
    }
  }

  lemma ReplaceCasesEffect(db: Tables, c: Collation, pid: nat, cases: seq<CaseData>, server: Server, k: nat)
    requires WF(db, c) && pid in db.problems
    ensures var r := ReplaceCases(db, pid, cases, server, k);
            && CountersGrow(db, r.db)
            && (r.Done? ==> Became(db, r.db, c, pid, Problem(db.problems[pid], TagKeys(db, c, pid), cases)))
  {
    var gone := DeleteCases(db, pid, server(k));
    if gone.Done? {
      DeleteCasesEffect(db, c, pid, server(k));
      InsertCasesEffect(gone.db, c, pid, cases, server, k + 1);
      var r := InsertCases(gone.db, pid, cases, server, k + 1);
      if r.Done? {
        TouchTrans(db, gone.db, r.db, pid);
        SameTagKeys(db, r.db, c, pid);
      }
    }
  }

  lemma ReplaceCasesIff(db: Tables, pid: nat, cases: seq<CaseData>, server: Server, k: nat)
    requires pid in db.problems
    ensures ReplaceCases(db, pid, cases, server, k).Done? <==> Answers(server, k, 1 + |cases|)
  {
    hide Answers;
    AnswersSplit(server, k, 1, |cases|);
    AnswersOne(server, k);
    var gone := DeleteCases(db, pid, server(k));
    if gone.Done? {
      InsertCasesIff(gone.db, pid, cases, server, k + 1);
    }
  }

  lemma ReplaceEffect(db: Tables, c: Collation, pid: nat, input: ProblemInput, server: Server, k: nat)
    requires WF(db, c) && pid in db.problems && db.problems[pid] == input.row
    ensures var r := Replace(db, c, pid, input, server, k);
            && CountersGrow(db, r.db)
            && (r.Done? ==> Became(db, r.db, c, pid, Described(c, input)))
  {
    hide ReplaceTags, ReplaceCases, WF;
    ReplaceTagsEffect(db, c, pid, input.tags, server, k);
    var tagged := ReplaceTags(db, c, pid, input.tags, server, k);
    if tagged.Done? {
      var k' := k + 1 + 2 * |input.tags|;
      ReplaceCasesEffect(tagged.db, c, pid, input.cases, server, k');
      var r := ReplaceCases(tagged.db, pid, input.cases, server, k');
      if r.Done? {
        BecameTrans(db, tagged.db, r.db, c, pid, Described(c, input));
      }
    }
  }

  lemma ReplaceIff(db: Tables, c: Collation, pid: nat, input: ProblemInput, server: Server, k: nat)
    requires WF(db, c) && pid in db.problems
    ensures Replace(db, c, pid, input, server, k).Done?
       <==> DistinctTags(c, input.tags) && Answers(server, k, (1 + 2 * |input.tags|) + (1 + |input.cases|))
  {
    hide ReplaceTags, ReplaceCases, WF, OnlyTouches, Became, Answers, TagKeys, KeySet, DistinctTags;
    AnswersSplit(server, k, 1 + 2 * |input.tags|, 1 + |input.cases|);
    ReplaceTagsEffect(db, c, pid, input.tags, server, k);
    var tagged := ReplaceTags(db, c, pid, input.tags, server, k);
    if tagged.Done? {
      ReplaceCasesIff(tagged.db, pid, input.cases, server, k + 1 + 2 * |input.tags|);
    }
  }

  lemma UpdateBodyEffect(db: Tables, c: Collation, pid: nat, input: ProblemInput, server: Server)
    requires WF(db, c) && pid in db.problems
    ensures var r := UpdateBody(db, c, pid, input, server);
            && CountersGrow(db, r.db)
            && (r.Done? ==> Became(db, r.db, c, pid, Described(c, input)))
  {
    var one := UpdateRow(db, pid, input.row, server(1));
    if one.Done? {
      UpdateRowEffect(db, c, pid, input.row, server(1));
      ReplaceEffect(one.db, c, pid, input, server, 2);
      var r := Replace(one.db, c, pid, input, server, 2);
      if r.Done? {
        BecameTrans(db, one.db, r.db, c, pid, Described(c, input));
      }
    }
  }

  lemma UpdateIff(db: Tables, c: Collation, pid: nat, input: ProblemInput, server: Server)
    requires WF(db, c) && pid in db.problems
    ensures Update(db, c, pid, input, server).Done?
       <==> Storable(c, input) && Answers(server, 0, UpdateLength(input))
  {
    hide WF, Replace, Answers, OnlyTouches, DistinctTags;
    var n := (1 + 2 * |input.tags|) + (1 + |input.cases|);
    AnswersWrapped(server, 1 + n);
    AnswersSplit(server, 1, 1, n);
    AnswersOne(server, 1);
    var one := UpdateRow(db, pid, input.row, server(1));
    if one.Done? {
      UpdateRowEffect(db, c, pid, input.row, server(1));
      ReplaceIff(one.db, c, pid, input, server, 2);
    }
  }

  /** Updating a problem replaces it by exactly what was given, or changes no row at all; it goes through exactly when
      the schema accepts the input and no statement meets a fault. */
  lemma UpdateRefinesReplace(db: Tables, c: Collation, pid: nat, input: ProblemInput, server: Server)
    requires WF(db, c) && pid in db.problems
    ensures var r := Update(db, c, pid, input, server);
            && WF(r.db, c)
            && (r.Done? ==>
                  && Bank(r.db, c) == Bank(db, c)[pid := Described(c, input)]
                  && OnlyTouches(db, r.db, pid))
            && (r.Failed? ==> SameRows(db, r.db))
            && (r.Done? <==> Storable(c, input) && Answers(server, 0, UpdateLength(input)))
  {
    UpdateIff(db, c, pid, input, server);
    UpdateBodyEffect(db, c, pid, input, server);
    hide UpdateBody, Answers, Storable, UpdateLength;
    var r := Update(db, c, pid, input, server);
    if r.Done? {
      BankUpdated(db, r.db, c, pid, Described(c, input));
    } else if server(0).Ok? {
      SameRowsKeep(db, r.db, c);
    }
  }

  lemma DeletesNothing(db: Tables, c: Collation, pid: nat)
    requires WF(db, c) && pid !in db.problems
    ensures Without(db.cases, pid) == db.cases
    ensures (set l | l in db.links && l.0 != pid) == db.links
  {
    WithoutAbsent(db.cases, pid);
  }

  lemma ReplaceOfVanished(db: Tables, c: Collation, pid: nat, input: ProblemInput, server: Server, k: nat)
    requires WF(db, c) && pid !in db.problems
    ensures var r := Replace(db, c, pid, input, server, k);
            && CountersGrow(db, r.db)
            && (r.Done? ==> r.db == db)
            && (r.Done? <==> input.tags == [] && input.cases == [] && Answers(server, k, 2))
  {
    hide WF, OnlyTouches, Inserted, TagKeys, KeySet, DistinctTags, Without;
    DeletesNothing(db, c, pid);
    assert DeleteLinks(db, pid, server(k)).db == db;
    LinkTagsEffect(db, c, pid, input.tags, server, k + 1);
    if LinkTags(db, c, pid, input.tags, server, k + 1).Done? {
      var k' := k + 1 + 2 * |input.tags|;
      assert DeleteCases(db, pid, server(k')).db == db;
      InsertCasesEffect(db, c, pid, input.cases, server, k' + 1);
    }
  }

  /** A problem deleted between the existence check and the transaction: any tag or test case makes the update
      fail and roll back; with neither it reports success and does nothing. */
  lemma UpdateOfVanished(db: Tables, c: Collation, pid: nat, input: ProblemInput, server: Server)
    requires WF(db, c) && pid !in db.problems
    ensures var r := Update(db, c, pid, input, server);
            && SameRows(db, r.db)
            && (r.Done? <==> input.tags == [] && input.cases == [] && Answers(server, 0, UpdateLength(input)))
  {
    hide Replace, WF;
    ReplaceOfVanished(db, c, pid, input, server, 2);
  }

  lemma {:induction false} WithoutAbsent(rows: seq<CaseRow>, pid: nat)
    requires forall r | r in rows :: r.problemId != pid
    ensures Without(rows, pid) == rows
  {
    if rows != [] {
      var n := |rows| - 1;
      WithoutAbsent(rows[..n], pid);
      assert rows[n] in rows && rows == rows[..n] + [rows[n]];
    }
  }

  // ---- Delete ----

  /** Deleting a problem removes it, its links and its test cases, and nothing else; an absent id changes nothing. */
  lemma DeleteRefinesRemove(db: Tables, c: Collation, pid: nat, reply: Reply)
    requires WF(db, c)
    ensures var r := DeleteProblem(db, pid, reply);
            && WF(r.db, c)
            && (r.Failed? ==> r.db == db)
            && (r.Done? ==> Bank(r.db, c) == Bank(db, c) - {pid} && OnlyTouches(db, r.db, pid))
            && (r.Done? && pid !in db.problems ==> r.db == db)
  {
    RemovedView(db, c, pid);
    RemovedWF(db, c, pid);
    RemovedBank(db, c, pid);
    RemovedAbsent(db, c, pid);
    assert reply.Ok? ==> DeleteProblem(db, pid, reply) == Done(Removed(db, pid), pid);
  }

  lemma RemovedAbsent(db: Tables, c: Collation, pid: nat)
    requires WF(db, c)
    ensures pid !in db.problems ==> Removed(db, pid) == db
  {
    if pid !in db.problems {
      DeletesNothing(db, c, pid);
      assert db.problems - {pid} == db.problems;
    }
  }

  lemma RemovedBank(db: Tables, c: Collation, pid: nat)
    requires WF(db, c)
    ensures Bank(Removed(db, pid), c) == Bank(db, c) - {pid}
  {
    RemovedView(db, c, pid);
    forall q | q in db.problems && q != pid ensures ProblemOf(Removed(db, pid), c, q) == ProblemOf(db, c, q) {
      assert SameView(db, Removed(db, pid), q);
      SameProblem(db, Removed(db, pid), c, q);
    }
  }

  function Removed(db: Tables, pid: nat): Tables { DeleteProblem(db, pid, Ok(0)).db }

  lemma RemovedWF(db: Tables, c: Collation, pid: nat)
    requires WF(db, c)
    ensures WF(Removed(db, pid), c)
  {
    WithoutKeepsOrder(db.cases, pid);
  }

  lemma RemovedView(db: Tables, c: Collation, pid: nat)
    requires WF(db, c)
    ensures OnlyTouches(db, Removed(db, pid), pid)
  {
    forall q ensures RowsOf(Removed(db, pid).cases, q) == if q == pid then [] else RowsOf(db.cases, q) {
      RowsOfWithout(db.cases, pid, q);
    }
  }
}
