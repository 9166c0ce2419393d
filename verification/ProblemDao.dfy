/** The data-access object over the tables: its loops, its transactions and the reset, step by step. */
module ProblemDao {
  import opened ProblemBank
  import opened ProblemQueries
  import opened SeedLoader
  import opened Wrappers

  class Dao {
    const collate: Collation
    var db: Tables

    constructor (collate: Collation)
      ensures this.collate == collate && db == EMPTY
    {
      this.collate := collate;
      db := EMPTY;
    }

    // Run a statement; false is the exception the source throws.
    method Execute(outcome: Outcome) returns (ok: bool)
      modifies this`db
      ensures db == outcome.db && (ok <==> outcome.Done?)
    {
      db := outcome.db;
      ok := outcome.Done?;
    }

    method InsertProblemTags(pid: nat, tags: seq<string>, server: Server, k: nat) returns (ok: bool)
      modifies this`db
      ensures LinkTags(old(db), collate, pid, tags, server, k) == if ok then Done(db, pid) else Failed(db)
    {
      hide UpsertTag, InsertLink;
      var i := 0;
      assert tags[0..] == tags;
      while i < |tags|
        invariant 0 <= i <= |tags|
        invariant LinkTags(old(db), collate, pid, tags, server, k)
               == LinkTags(db, collate, pid, tags[i..], server, k + 2 * i)
      {
        assert tags[i..][1..] == tags[i + 1..];
        var upsert := UpsertTag(db, collate, tags[i], server(k + 2 * i));
        ok := Execute(upsert);
        if !ok {
          return;
        }
        ok := Execute(InsertLink(db, pid, upsert.id, server(k + 2 * i + 1)));
        if !ok {
          return;
        }
        i := i + 1;
      }
      return true;
    }

    method InsertTestcases(pid: nat, cases: seq<CaseData>, server: Server, k: nat) returns (ok: bool)
      modifies this`db
      ensures InsertCases(old(db), pid, cases, server, k) == if ok then Done(db, pid) else Failed(db)
    {
      hide InsertCase;
      var i := 0;
      assert cases[0..] == cases;
      while i < |cases|
        invariant 0 <= i <= |cases|
        invariant InsertCases(old(db), pid, cases, server, k) == InsertCases(db, pid, cases[i..], server, k + i)
      {
        assert cases[i..][1..] == cases[i + 1..];
        ok := Execute(InsertCase(db, pid, cases[i], server(k + i)));
        if !ok {
          return;
        }
        i := i + 1;
      }
      return true;
    }

    // COMMIT; on failure, or when the body failed, the Transaction's destructor rolls back.
    method Close(before: Tables, body: bool, commit: Reply) returns (finished: bool)
      modifies this`db
      ensures finished <==> body && commit.Ok?
      ensures db == if finished then old(db) else Rollback(before, old(db))
    {
      finished := body && commit.Ok?;
      if !finished {
        db := Rollback(before, db);
      }
    }

    /** createProblem: the new id, or None with every row as before. */
    method CreateProblem(input: ProblemInput, server: Server) returns (id: Option<nat>)
      modifies this`db
      ensures Create(old(db), collate, input, server) == if id.Some? then Done(db, id.value) else Failed(db)
    {
      hide InsertProblem, LinkTags, InsertCases;
      if server(0).Fault? {
        return None;
      }
      var before := db;
      var insert := InsertProblem(db, input.row, server(1));
      var ok := Execute(insert);
      if ok {
        ok := InsertProblemTags(insert.id, input.tags, server, 2);
      }
      if ok {
        ok := InsertTestcases(insert.id, input.cases, server, 2 + 2 * |input.tags|);
      }
      var finished := Close(before, ok, server(2 + 2 * |input.tags| + |input.cases|));
      return if finished then Some(before.nextProblem) else None;
    }

    // replaceTagsAndTestcases.
    method ReplaceTagsAndTestcases(pid: nat, input: ProblemInput, server: Server, k: nat) returns (ok: bool)
      modifies this`db
      ensures Replace(old(db), collate, pid, input, server, k).db == db
      ensures ok <==> Replace(old(db), collate, pid, input, server, k).Done?
    {
      hide DeleteLinks, LinkTags, DeleteCases, InsertCases;
      ok := Execute(DeleteLinks(db, pid, server(k)));
      if ok {
        ok := InsertProblemTags(pid, input.tags, server, k + 1);
      }
      if ok {
        ok := Execute(DeleteCases(db, pid, server(k + 1 + 2 * |input.tags|)));
        if ok {
          ok := InsertTestcases(pid, input.cases, server, k + 2 + 2 * |input.tags|);
        }
      }
    }

    /** updateProblem with nobody between the check and the transaction: false for an unknown id, an error with
        every row as before. */
    method UpdateProblem(pid: nat, input: ProblemInput, check: Reply, server: Server) returns (r: Result<bool, string>)
      modifies this`db
      ensures check.Fault? ==> r.Failure? && db == old(db)
      ensures check.Ok? && pid !in old(db).problems ==> r == Success(false) && db == old(db)
      ensures check.Ok? && pid in old(db).problems ==>
                var outcome := Update(old(db), collate, pid, input, server);
                db == outcome.db && if outcome.Done? then r == Success(true) else r.Failure?
    {
      hide UpdateRow, Replace;
      if check.Fault? {
        return Failure("existence check failed");
      }
      if pid !in db.problems {
        return Success(false);
      }
      if server(0).Fault? {
        return Failure("transaction start failed");
      }
      var before := db;
      var ok := Execute(UpdateRow(db, pid, input.row, server(1)));
      if ok {
        ok := ReplaceTagsAndTestcases(pid, input, server, 2);
      }
      var finished := Close(before, ok, server(4 + 2 * |input.tags| + |input.cases|));
      return if finished then Success(true) else Failure("update failed");
    }

    /** deleteProblem: whether a row went. */
    method RemoveProblem(pid: nat, reply: Reply) returns (r: Result<bool, string>)
      modifies this`db
      ensures db == DeleteProblem(old(db), pid, reply).db
      ensures if reply.Fault? then r.Failure? else r == Success(pid in old(db).problems)
    {
      var affected := pid in db.problems;
      var ok := Execute(DeleteProblem(db, pid, reply));
      return if ok then Success(affected) else Failure("problem delete failed");
    }

    /** listProblems: the rows of the SELECT in id order, each completed with its tag names. */
    method ListAll(f: Filters) returns (summaries: seq<Summary>)
      requires WF(db, collate)
      ensures summaries == ListProblems(db, collate, f)
      ensures forall i, j | 0 <= i < j < |summaries| :: summaries[i].id < summaries[j].id
    {
      hide WF, JoinedRows;
      ListingIsPlainFilter(db, collate, f);
      summaries := [];
      for p := 0 to db.nextProblem
        invariant summaries == JoinBelow(db, collate, f, p)
      {
        summaries := summaries + JoinedRows(db, collate, f, p);
      }
    }

    /** clearProblemBank: the statements in turn, each committed on its own. */
    method ClearProblemBank(server: Server) returns (ok: bool)
      modifies this`db
      ensures db == Cleared(old(db), FirstFault(server, 0))
      ensures ok <==> FirstFault(server, 0) == STATEMENTS
    {
      for j := 0 to STATEMENTS
        invariant db == Cleared(old(db), j)
        invariant FirstFault(server, 0) == FirstFault(server, j)
      {
        if server(j).Fault? {
          return false;
        }
        db := ClearStep(db, j);
      }
      return true;
    }

    /** loadProblemsFromJson after parsing: the index at which it stopped, |seed| when all went in. */
    method LoadProblems(seed: Seed, servers: nat -> Server) returns (index: nat)
      modifies this`db
      ensures index <= |seed|
      ensures Load(old(db), collate, seed, servers, 0) == if index == |seed| then Done(db, index) else Failed(db)
    {
      index := 0;
      while index < |seed|
        invariant 0 <= index <= |seed|
        invariant Load(old(db), collate, seed, servers, 0) == Load(db, collate, seed, servers, index)
      {
        if seed[index] == None {
          return;
        }
        var id := CreateProblem(seed[index].value, servers(index));
        if id == None {
          return;
        }
        index := index + 1;
      }
    }

    /** resetProblemBank. */
    method ResetProblemBank(file: Option<Seed>, server: Server, servers: nat -> Server) returns (ok: bool)
      modifies this`db
      ensures Reset(old(db), collate, file, server, servers).db == db
      ensures ok <==> Reset(old(db), collate, file, server, servers).Done?
    {
      ok := ClearProblemBank(server);
      if !ok {
        return;
      }
      if file == None {
        return false;
      }
      var index := LoadProblems(file.value, servers);
      return index == |file.value|;
    }
  }
}
