/**
 Startup migrations: revisions applied in order and marked one by one, by a process
 that may stop anywhere and be started again.
 */
module Migrations {
  /** Table and column names, with the ones a revision mentions set apart. */
  datatype Table = ApiKeys | OtherTable(name: string)
  datatype Column = Role | RevokedAt | LastUsedAt | OtherColumn(name: string)
  type Schema = map<Table, set<Column>>

  datatype RevisionId = Rev20260427a | Rev20260429a | Rev20260429b | Rev20260504a

  datatype Change = CreateAll | ApiKeyRoleUpgrade

  datatype Revision = Revision(id: RevisionId, change: Change)

  const REVISIONS: seq<Revision> := [
    Revision(Rev20260427a, CreateAll),
    Revision(Rev20260429a, ApiKeyRoleUpgrade),
    Revision(Rev20260429b, CreateAll),
    Revision(Rev20260504a, CreateAll)]

  const UPGRADE_COLUMNS: set<Column> := {Role, RevokedAt, LastUsedAt}

  /** Adds the missing tables among `tables`, and leaves the existing ones as they are. */
  function CreateMissing(models: Schema, schema: Schema, tables: set<Table>): Schema {
    map t | t in schema.Keys + (models.Keys * tables) :: if t in schema then schema[t] else models[t]
  }

  function Changed(models: Schema, change: Change, schema: Schema): Schema {
    match change
    case CreateAll => CreateMissing(models, schema, models.Keys)
    case ApiKeyRoleUpgrade =>
      if ApiKeys in schema then schema[ApiKeys := schema[ApiKeys] + UPGRADE_COLUMNS] else schema
  }

  /** `executed` records every revision function that was started, whether or not it was marked. */
  datatype Database = Database(schema: Schema, applied: seq<RevisionId>, executed: seq<RevisionId>)

  /**
   Where in a revision a process can stop, with what it has created or added by then; one that stops after
   the mark has stopped before the next change.
   */
  datatype Stop = BeforeChange | DuringChange(created: set<Table>, added: set<Column>) | BeforeMark

  /** A process that stops at revision number `revision`; it completes if there is no such revision. */
  datatype Attempt = Attempt(revision: nat, stop: Stop)

  /** What a stopped process leaves of a change: any of its tables, or any of its columns, each of them whole. */
  function Partial(models: Schema, change: Change, schema: Schema, stop: Stop): Schema {
    match stop
    case BeforeChange => schema
    case BeforeMark => Changed(models, change, schema)
    case DuringChange(created, added) =>
      if change == CreateAll then CreateMissing(models, schema, created)
      else if ApiKeys in schema then schema[ApiKeys := schema[ApiKeys] + UPGRADE_COLUMNS * added]
      else schema
  }

  function Stopped(models: Schema, db: Database, revision: Revision, stop: Stop): Database {
    db.(schema := Partial(models, revision.change, db.schema, stop),
        executed := if stop.BeforeChange? then db.executed else db.executed + [revision.id])
  }

  function Marked(models: Schema, db: Database, revision: Revision): Database {
    Database(Changed(models, revision.change, db.schema), db.applied + [revision.id], db.executed + [revision.id])
  }

  /** One process, from revision `i` on. */
  function Process(models: Schema, db: Database, attempt: Attempt, i: nat): Database
    requires i <= |REVISIONS|
    decreases |REVISIONS| - i
  {
    if i == |REVISIONS| then db
    else
      var revision := REVISIONS[i];
      if revision.id in db.applied then
        if attempt.revision == i then db else Process(models, db, attempt, i + 1)
      else if attempt.revision == i then Stopped(models, db, revision, attempt.stop)
      else Process(models, Marked(models, db, revision), attempt, i + 1)
  }

  class Engine {
    var schema: Schema
    var applied: seq<RevisionId>
    ghost var executed: seq<RevisionId>

    constructor (schema: Schema)
      ensures View() == Database(schema, [], [])
    {
      this.schema, applied, executed := schema, [], [];
    }

    ghost function View(): Database
      reads this
    {
      Database(schema, applied, executed)
    }

    method MigrateDatabase(models: Schema, attempt: Attempt) returns (completed: bool)
      modifies this
      ensures View() == Process(models, old(View()), attempt, 0)
      ensures completed <==> attempt.revision >= |REVISIONS|
    {
      var i := 0;
      while i < |REVISIONS|
        invariant 0 <= i <= |REVISIONS| && (i < |REVISIONS| ==> attempt.revision >= i)
        invariant i == |REVISIONS| ==> attempt.revision >= i
        invariant Process(models, View(), attempt, i) == Process(models, old(View()), attempt, 0)
      {
        var revision := REVISIONS[i];
        if attempt.revision == i {
          if revision.id !in applied {
            schema := Partial(models, revision.change, schema, attempt.stop);
            executed := if attempt.stop.BeforeChange? then executed else executed + [revision.id];
          }
          return false;
        }
        if revision.id !in applied {
          schema := Changed(models, revision.change, schema);
          executed := executed + [revision.id];
          applied := applied + [revision.id];
        }
        i := i + 1;
      }
      completed := true;
    }
  }

  // ---------------------------------------------------------------------
  // Restarting is safe
  // ---------------------------------------------------------------------

  function Ids(k: nat): seq<RevisionId>
    requires k <= |REVISIONS|
  {
    seq(k, i requires 0 <= i < k => REVISIONS[i].id)
  }

  /** The schema after the first `k` changes, made without interruption. */
  function AfterFirst(models: Schema, start: Schema, k: nat): Schema
    requires k <= |REVISIONS|
  {
    if k == 0 then start else Changed(models, REVISIONS[k - 1].change, AfterFirst(models, start, k - 1))
  }

  function Run(models: Schema, start: Schema, attempts: seq<Attempt>): Database {
    if attempts == [] then Database(start, [], [])
    else Process(models, Run(models, start, attempts[..|attempts| - 1]), attempts[|attempts| - 1], 0)
  }

  /** A prefix of the revisions is marked, and making the next change would bring the schema where it should be. */
  ghost predicate OnCourse(models: Schema, start: Schema, db: Database) {
    var k := |db.applied|;
    && k <= |REVISIONS| && db.applied == Ids(k)
    && if k == |REVISIONS| then db.schema == AfterFirst(models, start, k)
       else Changed(models, REVISIONS[k].change, db.schema) == AfterFirst(models, start, k + 1)
  }

  /** Making a change again changes nothing. */
  lemma ChangeIsIdempotent(models: Schema, change: Change, schema: Schema)
    ensures Changed(models, change, Changed(models, change, schema)) == Changed(models, change, schema)
  {
  }

  /** A change made after it was started and stopped ends up where it would have. */
  lemma ChangeResumes(models: Schema, change: Change, schema: Schema, stop: Stop)
    ensures Changed(models, change, Partial(models, change, schema, stop)) == Changed(models, change, schema)
  {
    ChangeIsIdempotent(models, change, schema);
    if stop.DuringChange? && ApiKeys in schema {
      var columns := schema[ApiKeys];
      assert columns + UPGRADE_COLUMNS * stop.added + UPGRADE_COLUMNS == columns + UPGRADE_COLUMNS;
    }
  }

  /** The schema has got from `schema` some of the way to `changed`: whole tables, or single columns of a table. */
  ghost predicate IsPart(schema: Schema, changed: Schema, part: Schema) {
    && schema.Keys <= part.Keys <= changed.Keys
    && forall t :: t in part ==> if t in schema then schema[t] <= part[t] <= changed[t] else part[t] == changed[t]
  }

  lemma PartialIsPart(models: Schema, change: Change, schema: Schema, stop: Stop)
    ensures IsPart(schema, Changed(models, change, schema), Partial(models, change, schema, stop))
  {
  }

  lemma PartsAreLeft(models: Schema, change: Change, schema: Schema, part: Schema) returns (stop: Stop)
    requires IsPart(schema, Changed(models, change, schema), part)
    ensures Partial(models, change, schema, stop) == part
  {
    stop := DuringChange(part.Keys, if ApiKeys in part then part[ApiKeys] else {});
    var left := Partial(models, change, schema, stop);
    assert left.Keys == part.Keys;
    if change == ApiKeyRoleUpgrade && ApiKeys in schema {
      assert left[ApiKeys] == part[ApiKeys];
    }
    assert forall t :: t in part ==> left[t] == part[t];
  }

  /** What a process that stops can leave of a change is any part of it. */
  lemma StopsLeaveAnyPart(models: Schema, change: Change, schema: Schema, part: Schema)
    ensures (exists stop :: Partial(models, change, schema, stop) == part)
            <==> IsPart(schema, Changed(models, change, schema), part)
  {
    if stop :| Partial(models, change, schema, stop) == part {
      PartialIsPart(models, change, schema, stop);
    }
    if IsPart(schema, Changed(models, change, schema), part) {
      var stop := PartsAreLeft(models, change, schema, part);
    }
  }

  lemma IdsAreDistinct(i: nat, k: nat)
    requires i < |REVISIONS| && k <= |REVISIONS|
    ensures REVISIONS[i].id in Ids(k) <==> i < k
  {
    assert i < k ==> Ids(k)[i] == REVISIONS[i].id;
  }

  lemma MarkingStaysOnCourse(models: Schema, start: Schema, db: Database)
    requires OnCourse(models, start, db) && |db.applied| < |REVISIONS|
    ensures OnCourse(models, start, Marked(models, db, REVISIONS[|db.applied|]))
  {
    var k := |db.applied|;
    assert Ids(k + 1) == Ids(k) + [REVISIONS[k].id];
    if k + 1 < |REVISIONS| {
      assert AfterFirst(models, start, k + 2)
             == Changed(models, REVISIONS[k + 1].change, AfterFirst(models, start, k + 1));
    }
  }

  lemma StoppingStaysOnCourse(models: Schema, start: Schema, db: Database, stop: Stop)
    requires OnCourse(models, start, db) && |db.applied| < |REVISIONS|
    ensures OnCourse(models, start, Stopped(models, db, REVISIONS[|db.applied|], stop))
  {
    ChangeResumes(models, REVISIONS[|db.applied|].change, db.schema, stop);
  }

  /** With a prefix of the revisions marked, what the loop leaves when the process stops at revision `i`... */
  function Halted(models: Schema, db: Database, i: nat, stop: Stop): Database
    requires i < |REVISIONS|
  {
    if i < |db.applied| then db else Stopped(models, db, REVISIONS[i], stop)
  }

  /** ...and what it goes on with when it does not. */
  function Advanced(models: Schema, db: Database, i: nat): Database
    requires i < |REVISIONS|
  {
    if i < |db.applied| then db else Marked(models, db, REVISIONS[i])
  }

  ghost predicate PrefixMarked(db: Database) {
    |db.applied| <= |REVISIONS| && db.applied == Ids(|db.applied|)
  }

  lemma ProcessStep(models: Schema, db: Database, attempt: Attempt, i: nat)
    requires i < |REVISIONS| && PrefixMarked(db)
    ensures Process(models, db, attempt, i) ==
              if attempt.revision == i then Halted(models, db, i, attempt.stop)
              else Process(models, Advanced(models, db, i), attempt, i + 1)
  {
    IdsAreDistinct(i, |db.applied|);
  }

  lemma AdvancedIsMarked(models: Schema, db: Database, i: nat)
    requires i < |REVISIONS| && i <= |db.applied| && PrefixMarked(db)
    ensures var after := Advanced(models, db, i);
            && PrefixMarked(after) && i + 1 <= |after.applied| && (i == |db.applied| ==> |after.applied| == i + 1)
            && |after.executed| - |db.executed| == |after.applied| - |db.applied|
  {
    if i == |db.applied| {
      assert Ids(i + 1) == Ids(i) + [REVISIONS[i].id];
    }
  }

  lemma AdvancedStaysOnCourse(models: Schema, start: Schema, db: Database, i: nat)
    requires i < |REVISIONS| && i <= |db.applied| && OnCourse(models, start, db)
    ensures OnCourse(models, start, Advanced(models, db, i))
  {
    if i == |db.applied| {
      MarkingStaysOnCourse(models, start, db);
    }
  }

  lemma HaltedStaysOnCourse(models: Schema, start: Schema, db: Database, i: nat, stop: Stop)
    requires i < |REVISIONS| && i <= |db.applied| && OnCourse(models, start, db)
    ensures OnCourse(models, start, Halted(models, db, i, stop))
  {
    if i == |db.applied| {
      StoppingStaysOnCourse(models, start, db, stop);
    }
  }

  lemma {:induction false} ProcessStaysOnCourse(models: Schema, start: Schema, db: Database, attempt: Attempt, i: nat)
    requires i <= |db.applied| && OnCourse(models, start, db)
    ensures var after := Process(models, db, attempt, i);
            && OnCourse(models, start, after)
            && (attempt.revision >= |REVISIONS| ==> |after.applied| == |REVISIONS|)
    decreases |REVISIONS| - i
  {
    if i == |REVISIONS| {
    } else {
      ProcessStep(models, db, attempt, i);
      if attempt.revision == i {
        HaltedStaysOnCourse(models, start, db, i, attempt.stop);
      } else {
        AdvancedIsMarked(models, db, i);
        AdvancedStaysOnCourse(models, start, db, i);
        ProcessStaysOnCourse(models, start, Advanced(models, db, i), attempt, i + 1);
      }
    }
  }

  /** Over any number of interrupted runs the marks are a prefix of the revision list, none made twice. */
  lemma {:induction false} MarksAreAPrefix(models: Schema, start: Schema, attempts: seq<Attempt>)
    ensures OnCourse(models, start, Run(models, start, attempts))
    ensures var applied := Run(models, start, attempts).applied;
            && |applied| <= |REVISIONS| && applied == Ids(|applied|)
            && applied <= [Rev20260427a, Rev20260429a, Rev20260429b, Rev20260504a]
            && forall i, j :: 0 <= i < j < |applied| ==> applied[i] != applied[j]
  {
    if attempts == [] {
      assert Ids(0) == [];
    } else {
      MarksAreAPrefix(models, start, attempts[..|attempts| - 1]);
      ProcessStaysOnCourse(models, start, Run(models, start, attempts[..|attempts| - 1]), attempts[|attempts| - 1], 0);
    }
    var applied := Run(models, start, attempts).applied;
    forall i, j | 0 <= i < j < |applied| ensures applied[i] != applied[j] {
      IdsAreDistinct(j, j);
    }
  }

  /** After one complete run, whatever was interrupted before it, the schema is that of an uninterrupted migration. */
  lemma CompleteRunConverges(models: Schema, start: Schema, attempts: seq<Attempt>, last: Attempt)
    requires last.revision >= |REVISIONS|
    ensures var db := Run(models, start, attempts + [last]);
            && db.schema == AfterFirst(models, start, |REVISIONS|)
            && db.applied == Ids(|REVISIONS|) == [Rev20260427a, Rev20260429a, Rev20260429b, Rev20260504a]
  {
    var all := attempts + [last];
    assert all[..|all| - 1] == attempts;
    MarksAreAPrefix(models, start, attempts);
    ProcessStaysOnCourse(models, start, Run(models, start, attempts), last, 0);
  }

  /** The process stops inside a revision function it has started, or before the mark of one. */
  predicate StopsInside(db: Database, attempt: Attempt) {
    |db.applied| <= attempt.revision < |REVISIONS| && !attempt.stop.BeforeChange?
  }

  /** How many of the processes did. */
  function StopsBetween(models: Schema, start: Schema, attempts: seq<Attempt>): nat {
    if attempts == [] then 0 else
      var before := attempts[..|attempts| - 1];
      StopsBetween(models, start, before)
      + if StopsInside(Run(models, start, before), attempts[|attempts| - 1]) then 1 else 0
  }

  /** Between the two databases every revision function started was marked, except the one stopped inside, if any. */
  predicate StartsAccounted(db: Database, after: Database, inside: bool) {
    |after.executed| - |db.executed| == |after.applied| - |db.applied| + if inside then 1 else 0
  }

  lemma HaltedStarts(models: Schema, db: Database, attempt: Attempt, i: nat)
    requires i < |REVISIONS| && i <= |db.applied| && attempt.revision == i
    ensures StartsAccounted(db, Halted(models, db, i, attempt.stop), StopsInside(db, attempt))
  {
  }

  lemma AdvancedStarts(models: Schema, db: Database, attempt: Attempt, i: nat, after: Database)
    requires i < |REVISIONS| && i <= |db.applied| && PrefixMarked(db) && attempt.revision > i
    requires var next := Advanced(models, db, i); StartsAccounted(next, after, StopsInside(next, attempt))
    ensures StartsAccounted(db, after, StopsInside(db, attempt))
  {
    AdvancedIsMarked(models, db, i);
  }

  lemma {:induction false} ProcessStarts(models: Schema, db: Database, attempt: Attempt, i: nat)
    requires i <= |db.applied| && PrefixMarked(db) && attempt.revision >= i
    ensures StartsAccounted(db, Process(models, db, attempt, i), StopsInside(db, attempt))
    decreases |REVISIONS| - i
  {
    if i == |REVISIONS| {
    } else {
      ProcessStep(models, db, attempt, i);
      if attempt.revision == i {
        HaltedStarts(models, db, attempt, i);
      } else {
        var next := Advanced(models, db, i);
        AdvancedIsMarked(models, db, i);
        ProcessStarts(models, next, attempt, i + 1);
        AdvancedStarts(models, db, attempt, i, Process(models, next, attempt, i + 1));
      }
    }
  }

  /** A revision function is started once for its mark, and again only for a process that stopped inside one. */
  lemma {:induction false} StartsExactly(models: Schema, start: Schema, attempts: seq<Attempt>)
    ensures var db := Run(models, start, attempts);
            |db.executed| == |db.applied| + StopsBetween(models, start, attempts)
  {
    if attempts == [] {
    } else {
      var before := attempts[..|attempts| - 1];
      StartsExactly(models, start, before);
      MarksAreAPrefix(models, start, before);
      ProcessStarts(models, Run(models, start, before), attempts[|attempts| - 1], 0);
    }
  }

  /** And later runs execute nothing, not even a change that would make no difference. */
  lemma {:induction false} LaterRunsDoNothing(models: Schema, db: Database, attempt: Attempt, i: nat)
    requires i <= |REVISIONS| && db.applied == Ids(|REVISIONS|)
    ensures Process(models, db, attempt, i) == db
    decreases |REVISIONS| - i
  {
    if i == |REVISIONS| {
    } else {
      IdsAreDistinct(i, |REVISIONS|);
      LaterRunsDoNothing(models, db, attempt, i + 1);
    }
  }

  lemma FourChanges(models: Schema, start: Schema)
    ensures var created := Changed(models, CreateAll, start);
            var upgraded := Changed(models, ApiKeyRoleUpgrade, created);
            AfterFirst(models, start, |REVISIONS|) == Changed(models, CreateAll, Changed(models, CreateAll, upgraded))
  {
    var s1 := AfterFirst(models, start, 1);
    assert AfterFirst(models, start, 0) == start && s1 == Changed(models, REVISIONS[0].change, start);
    var s2 := AfterFirst(models, start, 2);
    assert s2 == Changed(models, REVISIONS[1].change, s1);
    var s3 := AfterFirst(models, start, 3);
    assert s3 == Changed(models, REVISIONS[2].change, s2);
  }

  lemma CreateAllCovered(models: Schema, schema: Schema)
    requires models.Keys <= schema.Keys
    ensures Changed(models, CreateAll, schema) == schema
  {
  }

  lemma CreatedThenUpgraded(models: Schema, start: Schema, upgraded: Schema)
    requires upgraded == Changed(models, ApiKeyRoleUpgrade, Changed(models, CreateAll, start))
    ensures upgraded.Keys == start.Keys + models.Keys
    ensures forall t :: t in upgraded && t != ApiKeys ==> upgraded[t] == if t in start then start[t] else models[t]
    ensures ApiKeys in upgraded ==>
              upgraded[ApiKeys] == (if ApiKeys in start then start[ApiKeys] else models[ApiKeys]) + UPGRADE_COLUMNS
  {
  }

  /** Missing tables are created whole, an existing api_keys gains three columns, no other existing table gains any. */
  lemma MigratedSchema(models: Schema, start: Schema)
    ensures var final := AfterFirst(models, start, |REVISIONS|);
            && final.Keys == start.Keys + models.Keys
            && (forall t :: t in final && t != ApiKeys ==> final[t] == if t in start then start[t] else models[t])
            && (ApiKeys in final ==>
                  final[ApiKeys] == (if ApiKeys in start then start[ApiKeys] else models[ApiKeys])
                                    + {Role, RevokedAt, LastUsedAt})
  {
    FourChanges(models, start);
    var created := Changed(models, CreateAll, start);
    var upgraded := Changed(models, ApiKeyRoleUpgrade, created);
    CreatedThenUpgraded(models, start, upgraded);
    CreateAllCovered(models, upgraded);
  }

  /** So the models are covered exactly when the tables that existed lacked nothing but those three columns. */
  lemma ModelsCoveredExactlyWhen(models: Schema, start: Schema)
    ensures var final := AfterFirst(models, start, |REVISIONS|);
            (forall t :: t in models ==> t in final && models[t] <= final[t]) <==>
            (forall t :: t in models && t in start ==>
               models[t] <= start[t] + if t == ApiKeys then {Role, RevokedAt, LastUsedAt} else {})
  {
    MigratedSchema(models, start);
    var final := AfterFirst(models, start, |REVISIONS|);
    forall t | t in models
      ensures models[t] <= final[t] <==>
        (t in start ==> models[t] <= start[t] + if t == ApiKeys then {Role, RevokedAt, LastUsedAt} else {})
    {
      assert t in final;
    }
  }
}
