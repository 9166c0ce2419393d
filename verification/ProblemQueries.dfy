/** What the problem bank shows its callers: full problems and filtered listings (backend/src/db/problem_dao.cpp). */
module ProblemQueries {
  import opened ProblemBank
  import opened Wrappers

  datatype Tag = Tag(id: nat, name: string)

  datatype FullProblem = FullProblem(id: nat, row: ProblemRow, tags: seq<Tag>, cases: seq<CaseRow>)

  datatype Summary = Summary(id: nat, title: string, difficulty: Difficulty, timeLimitMs: nat, memoryLimitMb: nat,
                             tags: seq<string>)

  datatype Filters = Filters(difficulty: Option<Difficulty>, tag: Option<string>)

  // The members of a set of ids, in increasing order.
  function Ids(keys: set<nat>, n: nat): seq<nat> {
    if n == 0 then [] else Ids(keys, n - 1) + if n - 1 in keys then [n - 1] else []
  }

  lemma {:induction false} IdsAreMembers(keys: set<nat>, n: nat)
    ensures forall i | 0 <= i < |Ids(keys, n)| :: Ids(keys, n)[i] in keys && Ids(keys, n)[i] < n
    ensures forall k | k in keys && k < n :: k in Ids(keys, n)
    ensures forall i, j | 0 <= i < j < |Ids(keys, n)| :: Ids(keys, n)[i] < Ids(keys, n)[j]
  {
    if n > 0 {
      IdsAreMembers(keys, n - 1);
    }
  }

  // ---- ORDER BY t.name ----

  function InsertByName(ts: seq<Tag>, t: Tag, c: Collation): seq<Tag> {
    if ts == [] || c(t.name) < c(ts[0].name) then [t] + ts
    else [ts[0]] + InsertByName(ts[1..], t, c)
  }

  function SortByName(ids: seq<nat>, tags: map<nat, string>, c: Collation): seq<Tag>
    requires forall i | 0 <= i < |ids| :: ids[i] in tags
  {
    if ids == [] then []
    else
      var n := |ids| - 1;
      InsertByName(SortByName(ids[..n], tags, c), Tag(ids[n], tags[ids[n]]), c)
  }

  function TagsOf(db: Tables, c: Collation, pid: nat): seq<Tag> {
    IdsAreMembers(TagIds(db, pid), db.nextTag);
    SortByName(Ids(TagIds(db, pid), db.nextTag), db.tags, c)
  }

  ghost predicate SortedByName(ts: seq<Tag>, c: Collation) {
    forall i, j | 0 <= i < j < |ts| :: c(ts[i].name) < c(ts[j].name)
  }

  // The tags of a problem, each once, in strictly increasing order of name.
  ghost predicate IsTagListing(db: Tables, c: Collation, pid: nat, ts: seq<Tag>) {
    && SortedByName(ts, c)
    && forall t :: t in ts <==> t.id in TagIds(db, pid) && db.tags[t.id] == t.name
  }

  lemma {:induction false} InsertByNameMembers(ts: seq<Tag>, t: Tag, c: Collation)
    ensures forall x :: x in InsertByName(ts, t, c) <==> x == t || x in ts
  {
    if ts != [] && !(c(t.name) < c(ts[0].name)) {
      InsertByNameMembers(ts[1..], t, c);
      assert ts == [ts[0]] + ts[1..];
    }
  }

  lemma ConsSorted(t: Tag, ts: seq<Tag>, c: Collation)
    requires SortedByName(ts, c) && forall x | x in ts :: c(t.name) < c(x.name)
    ensures SortedByName([t] + ts, c)
  {
  }

  lemma HeadIsLeast(ts: seq<Tag>, c: Collation)
    requires ts != [] && SortedByName(ts, c)
    ensures SortedByName(ts[1..], c) && forall x | x in ts[1..] :: x in ts && c(ts[0].name) < c(x.name)
  {
  }

  lemma {:induction false} InsertByNameSorts(ts: seq<Tag>, t: Tag, c: Collation)
    requires SortedByName(ts, c) && forall x | x in ts :: c(x.name) != c(t.name)
    ensures SortedByName(InsertByName(ts, t, c), c)
  {
    if ts != [] {
      var rest := ts[1..];
      HeadIsLeast(ts, c);
      assert ts == [ts[0]] + rest && ts[0] in ts;
      if c(t.name) < c(ts[0].name) {
        ConsSorted(t, ts, c);
      } else {
        InsertByNameSorts(rest, t, c);
        InsertByNameMembers(rest, t, c);
        ConsSorted(ts[0], InsertByName(rest, t, c), c);
      }
    }
  }

  lemma {:induction false} SortByNameSorts(ids: seq<nat>, tags: map<nat, string>, c: Collation)
    requires forall i | 0 <= i < |ids| :: ids[i] in tags
    requires forall i, j | 0 <= i < j < |ids| :: c(tags[ids[i]]) != c(tags[ids[j]])
    ensures SortedByName(SortByName(ids, tags, c), c)
    ensures forall t :: t in SortByName(ids, tags, c) <==> t.id in ids && tags[t.id] == t.name
  {
    if ids != [] {
      hide SortedByName, InsertByName;
      var n := |ids| - 1;
      SortByNameSorts(ids[..n], tags, c);
      var sorted, t := SortByName(ids[..n], tags, c), Tag(ids[n], tags[ids[n]]);
      forall x | x in sorted ensures c(x.name) != c(t.name) {
        var i :| 0 <= i < n && ids[i] == x.id;
      }
      InsertByNameSorts(sorted, t, c);
      InsertByNameMembers(sorted, t, c);
      assert ids == ids[..n] + [ids[n]];
    }
  }

  lemma TagsOfLists(db: Tables, c: Collation, pid: nat)
    requires WF(db, c)
    ensures IsTagListing(db, c, pid, TagsOf(db, c, pid))
  {
    var ids := Ids(TagIds(db, pid), db.nextTag);
    IdsAreMembers(TagIds(db, pid), db.nextTag);
    forall i, j | 0 <= i < j < |ids| ensures c(db.tags[ids[i]]) != c(db.tags[ids[j]]) {
      assert ids[i] in db.tags && ids[j] in db.tags;
    }
    SortByNameSorts(ids, db.tags, c);
  }

  lemma {:induction false} ListingIsUnique(db: Tables, c: Collation, pid: nat, a: seq<Tag>, b: seq<Tag>)
    requires SortedByName(a, c) && SortedByName(b, c) && forall t :: t in a <==> t in b
    ensures a == b
  {
    assert (a != [] ==> a[0] in b) && (b != [] ==> b[0] in a);
    if a != [] {
      FirstIsLeast(a, b, c);
      ListingIsUnique(db, c, pid, a[1..], b[1..]);
      assert a == [a[0]] + a[1..] && b == [b[0]] + b[1..];
    }
  }

  lemma FirstIsLeast(a: seq<Tag>, b: seq<Tag>, c: Collation)
    requires a != [] && b != [] && SortedByName(a, c) && SortedByName(b, c) && forall t :: t in a <==> t in b
    ensures a[0] == b[0]
    ensures forall t :: t in a[1..] <==> t in b[1..]
  {
    assert a[0] in b && b[0] in a;
    var i :| 0 <= i < |b| && b[i] == a[0];
    var j :| 0 <= j < |a| && a[j] == b[0];
    TailMembers(a, c);
    TailMembers(b, c);
  }

  lemma TailMembers(a: seq<Tag>, c: Collation)
    requires a != [] && SortedByName(a, c)
    ensures forall t :: t in a[1..] <==> t in a && t != a[0]
  {
    assert a == [a[0]] + a[1..];
    forall i | 0 <= i < |a| - 1 ensures a[1..][i] != a[0] {
      assert c(a[0].name) < c(a[i + 1].name);
    }
  }

  // ---- getFullProblem ----

  function GetFullProblem(db: Tables, c: Collation, pid: nat): Option<FullProblem> {
    if pid !in db.problems then None
    else Some(FullProblem(pid, db.problems[pid], TagsOf(db, c, pid), RowsOf(db.cases, pid)))
  }

  // All test cases of the problem and no others, in id order.
  ghost predicate AreRowsOf(rows: seq<CaseRow>, db: Tables, pid: nat) {
    Ascending(rows) && forall r :: r in rows <==> r in db.cases && r.problemId == pid
  }

  lemma {:induction false} RowsOfLists(rows: seq<CaseRow>, pid: nat)
    requires Ascending(rows)
    ensures Ascending(RowsOf(rows, pid))
    ensures forall r :: r in RowsOf(rows, pid) <==> r in rows && r.problemId == pid
  {
    if rows != [] {
      var n := |rows| - 1;
      RowsOfLists(rows[..n], pid);
      assert rows == rows[..n] + [rows[n]];
      forall r | r in RowsOf(rows[..n], pid) ensures r.id < rows[n].id {
        var i :| 0 <= i < n && rows[i] == r;
      }
    }
  }

  /** A read finds exactly the problems of the bank, and shows a problem's row, its tags by name and all its test cases
      in id order. */
  lemma FullProblemIff(db: Tables, c: Collation, pid: nat)
    requires WF(db, c)
    ensures GetFullProblem(db, c, pid) == None <==> pid !in Bank(db, c)
    ensures GetFullProblem(db, c, pid).Some? ==>
              var p := GetFullProblem(db, c, pid).value;
              && p.id == pid && p.row == db.problems[pid]
              && IsTagListing(db, c, pid, p.tags) && AreRowsOf(p.cases, db, pid)
  {
    if pid in db.problems {
      TagsOfLists(db, c, pid);
      RowsOfLists(db.cases, pid);
    }
  }

  /** After a delete the problem is not found, and every other one reads as before. */
  lemma ReadAfterDelete(db: Tables, c: Collation, pid: nat)
    requires WF(db, c)
    ensures var db' := DeleteProblem(db, pid, Ok(0)).db;
            && GetFullProblem(db', c, pid) == None
            && forall q | q != pid :: GetFullProblem(db', c, q) == GetFullProblem(db, c, q)
  {
    var db' := DeleteProblem(db, pid, Ok(0)).db;
    DeleteRefinesRemove(db, c, pid, Ok(0));
    FullProblemIff(db', c, pid);
    forall q | q != pid ensures GetFullProblem(db', c, q) == GetFullProblem(db, c, q) {
      OthersShowTheSame(db, db', c, pid, q);
    }
  }

  // p shows exactly what was submitted: fields, test cases in order, and the tags by name.
  ghost predicate Shows(p: FullProblem, c: Collation, pid: nat, input: ProblemInput) {
    && p.id == pid && p.row == input.row
    && |p.cases| == |input.cases| && (forall i | 0 <= i < |p.cases| :: p.cases[i].data == input.cases[i])
    && SortedByName(p.tags, c)
    && (set t | t in p.tags :: c(t.name)) == KeySet(c, input.tags)
  }

  lemma {:induction false} DataInOrder(rows: seq<CaseRow>)
    ensures |Data(rows)| == |rows| && forall i | 0 <= i < |rows| :: Data(rows)[i] == rows[i].data
  {
    if rows != [] {
      DataInOrder(rows[..|rows| - 1]);
    }
  }

  lemma ShowsDescribed(db: Tables, c: Collation, pid: nat, input: ProblemInput)
    requires WF(db, c) && pid in db.problems && ProblemOf(db, c, pid) == Described(c, input)
    ensures Shows(GetFullProblem(db, c, pid).value, c, pid, input)
  {
    var ts := TagsOf(db, c, pid);
    DataInOrder(RowsOf(db.cases, pid));
    TagsOfLists(db, c, pid);
    forall x ensures x in (set t | t in ts :: c(t.name)) <==> x in TagKeys(db, c, pid) {
      if x in TagKeys(db, c, pid) {
        var t :| t in TagIds(db, pid) && c(db.tags[t]) == x;
        assert Tag(t, db.tags[t]) in ts;
      }
    }
  }

  lemma OthersShowTheSame(db: Tables, db': Tables, c: Collation, pid: nat, q: nat)
    requires WF(db, c) && WF(db', c) && OnlyTouches(db, db', pid) && q != pid
    ensures GetFullProblem(db', c, q) == GetFullProblem(db, c, q)
  {
    assert SameView(db, db', q);
    SameTagKeys(db, db', c, q);
    TagsOfLists(db, c, q);
    TagsOfLists(db', c, q);
    ListingIsUnique(db, c, q, TagsOf(db, c, q), TagsOf(db', c, q));
  }

  /** After a create the new problem reads back as submitted, and every other one reads as before. */
  lemma ReadAfterCreate(db: Tables, c: Collation, input: ProblemInput, server: Server)
    requires WF(db, c) && Create(db, c, input, server).Done?
    ensures var Done(db', pid) := Create(db, c, input, server);
            && GetFullProblem(db', c, pid).Some? && Shows(GetFullProblem(db', c, pid).value, c, pid, input)
            && forall q | q != pid :: GetFullProblem(db', c, q) == GetFullProblem(db, c, q)
  {
    CreateRefinesInsert(db, c, input, server);
    var Done(db', pid) := Create(db, c, input, server);
    assert Bank(db', c)[pid] == Described(c, input);
    ShowsDescribed(db', c, pid, input);
    forall q | q != pid ensures GetFullProblem(db', c, q) == GetFullProblem(db, c, q) {
      OthersShowTheSame(db, db', c, pid, q);
    }
  }

  /** After an update the problem reads back as submitted, and every other one reads as before. */
  lemma ReadAfterUpdate(db: Tables, c: Collation, pid: nat, input: ProblemInput, server: Server)
    requires WF(db, c) && pid in db.problems && Update(db, c, pid, input, server).Done?
    ensures var db' := Update(db, c, pid, input, server).db;
            && GetFullProblem(db', c, pid).Some? && Shows(GetFullProblem(db', c, pid).value, c, pid, input)
            && forall q | q != pid :: GetFullProblem(db', c, q) == GetFullProblem(db, c, q)
  {
    UpdateRefinesReplace(db, c, pid, input, server);
    var db' := Update(db, c, pid, input, server).db;
    assert Bank(db', c)[pid] == Described(c, input);
    ShowsDescribed(db', c, pid, input);
    forall q | q != pid ensures GetFullProblem(db', c, q) == GetFullProblem(db, c, q) {
      OthersShowTheSame(db, db', c, pid, q);
    }
  }

  // ---- listProblems ----

  function Names(ts: seq<Tag>): (names: seq<string>) { seq(|ts|, i requires 0 <= i < |ts| => ts[i].name) }

  function SummaryOf(db: Tables, c: Collation, pid: nat): Summary
    requires pid in db.problems
  {
    var row := db.problems[pid];
    Summary(pid, row.title, row.difficulty, row.timeLimitMs, row.memoryLimitMb, Names(TagsOf(db, c, pid)))
  }

  predicate RightDifficulty(row: ProblemRow, f: Filters) {
    f.difficulty == None || f.difficulty.value == row.difficulty
  }

  // The tag rows the join pairs with a problem when filtering by name.
  function JoinedTags(db: Tables, c: Collation, pid: nat, name: string): set<nat> {
    set t | t in db.tags && (pid, t) in db.links && c(db.tags[t]) == c(name)
  }

  // How many rows the SELECT yields for one problem.
  function RowCount(db: Tables, c: Collation, pid: nat, f: Filters): nat
    requires pid in db.problems
  {
    if !RightDifficulty(db.problems[pid], f) then 0
    else if f.tag == None then 1
    else |JoinedTags(db, c, pid, f.tag.value)|
  }

  function Repeat<T>(x: T, n: nat): seq<T> { if n == 0 then [] else Repeat(x, n - 1) + [x] }

  lemma RepeatOnce<T>(x: T)
    ensures Repeat(x, 1) == [x]
  {
    assert Repeat(x, 0) == [];
  }

  // What the SELECT with its joins yields for the row with this id, if there is one.
  function JoinedRows(db: Tables, c: Collation, f: Filters, p: nat): seq<Summary> {
    if p in db.problems then Repeat(SummaryOf(db, c, p), RowCount(db, c, p, f)) else []
  }

  // The SELECT, ORDER BY p.id, for the problems below n.
  function JoinBelow(db: Tables, c: Collation, f: Filters, n: nat): seq<Summary> {
    if n == 0 then [] else JoinBelow(db, c, f, n - 1) + JoinedRows(db, c, f, n - 1)
  }

  function ListProblems(db: Tables, c: Collation, f: Filters): seq<Summary> {
    JoinBelow(db, c, f, db.nextProblem)
  }

  // The filter as plain membership tests on the summary itself.
  ghost predicate Matches(s: Summary, c: Collation, f: Filters) {
    && (f.difficulty == None || f.difficulty.value == s.difficulty)
    && (f.tag == None || exists i :: 0 <= i < |s.tags| && c(s.tags[i]) == c(f.tag.value))
  }

  ghost function PlainRows(db: Tables, c: Collation, f: Filters, p: nat): seq<Summary> {
    if p in db.problems && Matches(SummaryOf(db, c, p), c, f) then [SummaryOf(db, c, p)] else []
  }

  ghost function PlainBelow(db: Tables, c: Collation, f: Filters, n: nat): seq<Summary> {
    if n == 0 then [] else PlainBelow(db, c, f, n - 1) + PlainRows(db, c, f, n - 1)
  }

  // A joined tag row is a listed tag of that name.
  lemma JoinedIsListed(db: Tables, c: Collation, pid: nat, name: string)
    requires WF(db, c)
    ensures var ts := TagsOf(db, c, pid);
            && (forall t | t in JoinedTags(db, c, pid, name) :: Tag(t, db.tags[t]) in ts)
            && (forall i | 0 <= i < |ts| && c(ts[i].name) == c(name) :: JoinedTags(db, c, pid, name) == {ts[i].id})
  {
    var ts := TagsOf(db, c, pid);
    TagsOfLists(db, c, pid);
    forall i | 0 <= i < |ts| && c(ts[i].name) == c(name) ensures JoinedTags(db, c, pid, name) == {ts[i].id} {
      assert ts[i] in ts;
    }
  }

  /** Unique names and the (problem_id, tag_id) key leave at most one joined row. */
  lemma JoinYieldsAtMostOne(db: Tables, c: Collation, pid: nat, f: Filters)
    requires WF(db, c) && pid in db.problems
    ensures RowCount(db, c, pid, f) == if Matches(SummaryOf(db, c, pid), c, f) then 1 else 0
  {
    if f.tag.Some? {
      hide WF, TagsOf, JoinedTags;
      var name, ts := f.tag.value, TagsOf(db, c, pid);
      JoinedIsListed(db, c, pid, name);
      if i :| 0 <= i < |ts| && c(ts[i].name) == c(name) {
        assert Names(ts)[i] == ts[i].name;
      } else {
        assert JoinedTags(db, c, pid, name) == {};
      }
    }
  }

  lemma JoinedOnce(db: Tables, c: Collation, f: Filters, p: nat)
    requires WF(db, c)
    ensures JoinedRows(db, c, f, p) == PlainRows(db, c, f, p)
  {
    if p in db.problems {
      JoinYieldsAtMostOne(db, c, p, f);
      RepeatOnce(SummaryOf(db, c, p));
    }
  }

  lemma {:induction false} JoinIsPlain(db: Tables, c: Collation, f: Filters, n: nat)
    requires forall p: nat | p < n :: JoinedRows(db, c, f, p) == PlainRows(db, c, f, p)
    ensures JoinBelow(db, c, f, n) == PlainBelow(db, c, f, n)
  {
    if n > 0 {
      JoinIsPlain(db, c, f, n - 1);
    }
  }

  // In increasing order of id, and all below n.
  ghost predicate OrderedBelow(r: seq<Summary>, n: nat) {
    && (forall i, j | 0 <= i < j < |r| :: r[i].id < r[j].id)
    && (forall i | 0 <= i < |r| :: r[i].id < n)
  }

  lemma SnocOrdered(r: seq<Summary>, s: Summary, n: nat)
    requires OrderedBelow(r, n) && s.id == n
    ensures OrderedBelow(r + [s], n + 1)
  {
  }

  lemma {:induction false} PlainIsOrdered(db: Tables, c: Collation, f: Filters, n: nat)
    ensures OrderedBelow(PlainBelow(db, c, f, n), n)
  {
    if n > 0 {
      PlainIsOrdered(db, c, f, n - 1);
      if PlainRows(db, c, f, n - 1) != [] {
        SnocOrdered(PlainBelow(db, c, f, n - 1), SummaryOf(db, c, n - 1), n - 1);
      } else {
        assert PlainBelow(db, c, f, n) == PlainBelow(db, c, f, n - 1);
      }
    }
  }

  lemma {:induction false} PlainMembers(db: Tables, c: Collation, f: Filters, n: nat, s: Summary)
    ensures s in PlainBelow(db, c, f, n)
       <==> s.id < n && s.id in db.problems && s == SummaryOf(db, c, s.id) && Matches(s, c, f)
  {
    if n > 0 {
      PlainMembers(db, c, f, n - 1, s);
    }
  }

  // Some tag with the name is linked to the problem.
  ghost predicate Tagged(db: Tables, c: Collation, pid: nat, name: string) {
    exists t :: t in TagIds(db, pid) && c(db.tags[t]) == c(name)
  }

  ghost predicate Wanted(db: Tables, c: Collation, f: Filters, pid: nat)
    requires pid in db.problems
  {
    && (f.difficulty.Some? ==> f.difficulty.value == db.problems[pid].difficulty)
    && (f.tag.Some? ==> Tagged(db, c, pid, f.tag.value))
  }

  // The summary tells the problem's own title, difficulty and limits, and the names of its tags in order.
  ghost predicate Summarises(s: Summary, db: Tables, c: Collation) {
    && s.id in db.problems
    && (var row := db.problems[s.id];
        && s.title == row.title && s.difficulty == row.difficulty
        && s.timeLimitMs == row.timeLimitMs && s.memoryLimitMb == row.memoryLimitMb)
    && (forall i, j | 0 <= i < j < |s.tags| :: c(s.tags[i]) < c(s.tags[j]))
    && (forall i | 0 <= i < |s.tags| :: IsTagOf(db, s.id, s.tags[i]))
    && (forall t | t in TagIds(db, s.id) :: db.tags[t] in s.tags)
  }

  ghost predicate IsTagOf(db: Tables, pid: nat, name: string) {
    exists t :: t in TagIds(db, pid) && db.tags[t] == name
  }

  lemma SummaryTells(db: Tables, c: Collation, pid: nat)
    requires WF(db, c) && pid in db.problems
    ensures Summarises(SummaryOf(db, c, pid), db, c) && SummaryOf(db, c, pid).id == pid
  {
    var ts := TagsOf(db, c, pid);
    var names := Names(ts);
    TagsOfLists(db, c, pid);
    hide TagsOf, WF;
    assert SummaryOf(db, c, pid).tags == names;
    forall i | 0 <= i < |names| ensures IsTagOf(db, pid, names[i]) {
      assert ts[i] in ts;
      assert ts[i].id in TagIds(db, pid) && db.tags[ts[i].id] == names[i];
    }
    forall t | t in TagIds(db, pid) ensures db.tags[t] in names {
      assert Tag(t, db.tags[t]) in ts;
      var i :| 0 <= i < |ts| && ts[i] == Tag(t, db.tags[t]);
      assert names[i] == db.tags[t];
    }
  }

  lemma MatchesIffWanted(db: Tables, c: Collation, f: Filters, pid: nat)
    requires WF(db, c) && pid in db.problems
    ensures Matches(SummaryOf(db, c, pid), c, f) <==> Wanted(db, c, f, pid)
  {
    var s := SummaryOf(db, c, pid);
    SummaryTells(db, c, pid);
    hide SummaryOf, TagIds, WF;
    if f.tag.Some? {
      var name := f.tag.value;
      if i :| 0 <= i < |s.tags| && c(s.tags[i]) == c(name) {
        assert IsTagOf(db, pid, s.tags[i]);
        var t :| t in TagIds(db, pid) && db.tags[t] == s.tags[i];
        assert Tagged(db, c, pid, name);
      }
      if Tagged(db, c, pid, name) {
        var t :| t in TagIds(db, pid) && c(db.tags[t]) == c(name);
        assert db.tags[t] in s.tags;
      }
    }
  }

  /** A filtered listing, from the tables alone: it summarises exactly the problems with the difficulty and a tag of the
      name, each once, in increasing id. */
  lemma ListingShowsTables(db: Tables, c: Collation, f: Filters)
    requires WF(db, c)
    ensures var r := ListProblems(db, c, f);
            && (forall i, j | 0 <= i < j < |r| :: r[i].id < r[j].id)
            && (forall i | 0 <= i < |r| :: Summarises(r[i], db, c) && Wanted(db, c, f, r[i].id))
            && (forall pid | pid in db.problems && Wanted(db, c, f, pid) :: exists i :: 0 <= i < |r| && r[i].id == pid)
  {
    var r := ListProblems(db, c, f);
    ListingIsPlainFilter(db, c, f);
    hide ListProblems, Matches, Wanted, WF, SummaryOf;
    forall i | 0 <= i < |r| ensures Summarises(r[i], db, c) && Wanted(db, c, f, r[i].id) {
      assert r[i] in r;
      SummaryTells(db, c, r[i].id);
      MatchesIffWanted(db, c, f, r[i].id);
    }
    forall pid | pid in db.problems && Wanted(db, c, f, pid) ensures exists i :: 0 <= i < |r| && r[i].id == pid {
      SummaryTells(db, c, pid);
      MatchesIffWanted(db, c, f, pid);
      assert SummaryOf(db, c, pid) in r;
    }
  }

  /** Filtering by join lists each matching problem exactly once, in increasing id, and no other. */
  lemma ListingIsPlainFilter(db: Tables, c: Collation, f: Filters)
    requires WF(db, c)
    ensures var r := ListProblems(db, c, f);
            && (forall i, j | 0 <= i < j < |r| :: r[i].id < r[j].id)
            && (forall s :: s in r <==> s.id in db.problems && s == SummaryOf(db, c, s.id) && Matches(s, c, f))
  {
    forall p: nat ensures JoinedRows(db, c, f, p) == PlainRows(db, c, f, p) {
      JoinedOnce(db, c, f, p);
    }
    JoinIsPlain(db, c, f, db.nextProblem);
    PlainIsOrdered(db, c, f, db.nextProblem);
    forall s ensures s in ListProblems(db, c, f)
                <==> s.id in db.problems && s == SummaryOf(db, c, s.id) && Matches(s, c, f)
    {
      PlainMembers(db, c, f, db.nextProblem, s);
    }
  }
}
