/** A tenant's configuration history: drafts, publication and rollback, each one transaction under the tenant's lock. */
module ConfigRevisions {
  import opened Prelude

  datatype Document = Document(text: string)

  datatype Status = Draft | Published | Superseded

  datatype Revision = Revision(id: nat, version: nat, status: Status, document: Document, createdBy: nat)

  type History = seq<Revision>

  /** Parses and validates a document; the flag asks for a copy with defaults filled in. */
  type Validator = (Document, bool) -> Option<Document>

  datatype ConfigError = NotFound | WrongStatus | Invalid | CommittedUnnotified(version: nat)

  type Outcome = Result<Revision, ConfigError>

  // ---------------------------------------------------------------- lookups

  datatype Lookup = ByVersion(version: nat) | ById(id: nat) | Current

  predicate Hits(r: Revision, lookup: Lookup) {
    match lookup
    case ByVersion(version) => r.version == version
    case ById(id) => r.id == id
    case Current => r.status.Published?
  }

  function Find(rows: History, lookup: Lookup): (at: Option<nat>)
    ensures at.Some? ==> at.value < |rows| && Hits(rows[at.value], lookup)
    ensures at.None? ==> forall i :: 0 <= i < |rows| ==> !Hits(rows[i], lookup)
  {
    if rows == [] then None
    else if Hits(rows[|rows| - 1], lookup) then Some(|rows| - 1)
    else Find(rows[..|rows| - 1], lookup)
  }

  function MaxVersion(rows: History): (max: nat)
    ensures forall i :: 0 <= i < |rows| ==> rows[i].version <= max
    ensures max == 0 || exists i :: 0 <= i < |rows| && rows[i].version == max
  {
    if rows == [] then 0
    else
      var rest := MaxVersion(rows[..|rows| - 1]);
      if rest < rows[|rows| - 1].version then rows[|rows| - 1].version else rest
  }

  // ---------------------------------------------------------------- the table and its constraints

  /** The unique constraint on versions and the partial unique index on published revisions. */
  ghost predicate Constraints(rows: History) {
    && (forall i, j :: 0 <= i < j < |rows| ==> rows[i].version != rows[j].version && rows[i].id != rows[j].id)
    && (forall i, j :: 0 <= i < j < |rows| ==> !(rows[i].status.Published? && rows[j].status.Published?))
  }

  function WithStatus(rows: History, i: nat, status: Status): History
    requires i < |rows|
  {
    rows[i := rows[i].(status := status)]
  }

  /** One tenant's rows in order of insertion. A write that broke a constraint would fail the transaction. */
  class RevisionTable {
    var rows: History

    constructor ()
      ensures rows == []
    {
      rows := [];
    }

    method SetStatus(i: nat, status: Status)
      requires i < |rows| && Constraints(WithStatus(rows, i, status))
      modifies this
      ensures rows == WithStatus(old(rows), i, status)
    {
      rows := WithStatus(rows, i, status);
    }

    method Create(version: nat, status: Status, document: Document, actor: nat) returns (r: Revision)
      requires Constraints(rows + [Revision(|rows|, version, status, document, actor)])
      modifies this
      ensures r == Revision(|old(rows)|, version, status, document, actor) && rows == old(rows) + [r]
    {
      r := Revision(|rows|, version, status, document, actor);
      rows := rows + [r];
    }
  }

  // ---------------------------------------------------------------- the specification

  /** Nothing may stop at a superseded revision without a published one after it, and versions count up from one. */
  ghost predicate Inv(rows: History) {
    && (forall i :: 0 <= i < |rows| ==> rows[i].version == i + 1 && rows[i].id == i)
    && (forall i, j :: 0 <= i < j < |rows| ==> !(rows[i].status.Published? && rows[j].status.Published?))
    && (forall i, j :: 0 <= i < |rows| && 0 <= j < |rows| && rows[i].status.Superseded? && rows[j].status.Published? ==> i < j)
    && ((exists i :: 0 <= i < |rows| && !rows[i].status.Draft?) ==> Find(rows, Current).Some?)
  }

  datatype Command =
    | CreateDraft(document: Document, actor: nat)
    | Publish(target: Lookup, notified: bool)
    | Rollback(source: nat, actor: nat, notified: bool)

  function Notified(r: Revision, notified: bool): Outcome {
    if notified then Ok(r) else Err(CommittedUnnotified(r.version))
  }

  /** The current revision superseded, if there is one. */
  function Retired(rows: History): (r: History)
    ensures |r| == |rows|
  {
    var current := Find(rows, Current);
    if current.Some? then WithStatus(rows, current.value, Superseded) else rows
  }

  function Apply(validate: Validator, rows: History, c: Command): (Outcome, History) {
    match c
    case CreateDraft(document, actor) =>
      var validated := validate(document, false);
      if validated.None? then (Err(Invalid), rows)
      else
        var r := Revision(|rows|, MaxVersion(rows) + 1, Draft, validated.value, actor);
        (Ok(r), rows + [r])
    case Publish(lookup, notified) =>
      var target, current := Find(rows, lookup), Find(rows, Current);
      if target.None? then (Err(NotFound), rows)
      else
        var t := target.value;
        if !rows[t].status.Draft? then (Err(WrongStatus), rows)
        else if validate(rows[t].document, false).None? then (Err(Invalid), rows)
        else if current.Some? && rows[t].version <= rows[current.value].version then (Err(WrongStatus), rows)
        else
          var rows' := WithStatus(Retired(rows), t, Published);
          (Notified(rows'[t], notified), rows')
    case Rollback(version, actor, notified) =>
      var source := Find(rows, ByVersion(version));
      if source.None? then (Err(NotFound), rows)
      else if rows[source.value].status.Draft? then (Err(WrongStatus), rows)
      else
        var validated := validate(rows[source.value].document, true);
        if validated.None? then (Err(Invalid), rows)
        else
          var r := Revision(|rows|, MaxVersion(rows) + 1, Published, validated.value, actor);
          (Notified(r, notified), Retired(rows) + [r])
  }

  function Run(validate: Validator, rows: History, commands: seq<Command>): History
    decreases |commands|
  {
    if commands == [] then rows
    else
      var n := |commands| - 1;
      Apply(validate, Run(validate, rows, commands[..n]), commands[n]).1
  }

  // ---------------------------------------------------------------- the service

  class ConfigService {
    const table: RevisionTable
    const validate: Validator

    constructor (table: RevisionTable, validate: Validator)
      ensures this.table == table && this.validate == validate
    {
      this.table, this.validate := table, validate;
    }

    method CreateDraft(document: Document, actor: nat) returns (r: Outcome)
      requires Inv(table.rows)
      modifies table
      ensures Inv(table.rows)
      ensures (r, table.rows) == Apply(validate, old(table.rows), Command.CreateDraft(document, actor))
    {
      ApplyKeepsInv(validate, table.rows, Command.CreateDraft(document, actor));
      var validated := validate(document, false);
      if validated.None? {
        return Err(Invalid);
      }
      NextVersion(table.rows);
      var version := MaxVersion(table.rows) + 1;
      var created := table.Create(version, Draft, validated.value, actor);
      r := Ok(created);
    }

    /** `publish` looks its target up by version and `publish_revision` by id; both go on like this. */
    method Publish(target: Lookup, notified: bool) returns (r: Outcome)
      requires Inv(table.rows)
      modifies table
      ensures Inv(table.rows)
      ensures (r, table.rows) == Apply(validate, old(table.rows), Command.Publish(target, notified))
    {
      ApplyKeepsInv(validate, table.rows, Command.Publish(target, notified));
      var found := Find(table.rows, target);
      if found.None? {
        return Err(NotFound);
      }
      var t := found.value;
      if !table.rows[t].status.Draft? {
        return Err(WrongStatus);
      }
      if validate(table.rows[t].document, false).None? {
        return Err(Invalid);
      }
      var current := Find(table.rows, Current);
      if current.Some? && table.rows[t].version <= table.rows[current.value].version {
        return Err(WrongStatus);
      }
      if current.Some? {
        table.SetStatus(current.value, Superseded);
      }
      table.SetStatus(t, Published);
      r := Notified(table.rows[t], notified);
    }

    method Rollback(source: nat, actor: nat, notified: bool) returns (r: Outcome)
      requires Inv(table.rows)
      modifies table
      ensures Inv(table.rows)
      ensures (r, table.rows) == Apply(validate, old(table.rows), Command.Rollback(source, actor, notified))
    {
      ApplyKeepsInv(validate, table.rows, Command.Rollback(source, actor, notified));
      var found := Find(table.rows, ByVersion(source));
      if found.None? {
        return Err(NotFound);
      }
      if table.rows[found.value].status.Draft? {
        return Err(WrongStatus);
      }
      var validated := validate(table.rows[found.value].document, true);
      if validated.None? {
        return Err(Invalid);
      }
      var created := Republish(validated.value, actor);
      r := Notified(created, notified);
    }

    /** Retires the current revision and appends a published one. */
    method Republish(document: Document, actor: nat) returns (created: Revision)
      requires Inv(table.rows)
      modifies table
      ensures created == Revision(|old(table.rows)|, MaxVersion(old(table.rows)) + 1, Published, document, actor)
      ensures table.rows == Retired(old(table.rows)) + [created]
    {
      ghost var before := table.rows;
      NextVersion(before);
      RetiringMeetsConstraints(before);
      AppendingMeetsConstraints(before, document, actor);
      var current := Find(table.rows, Current);
      if current.Some? {
        table.SetStatus(current.value, Superseded);
      }
      assert table.rows == Retired(before);
      SameVersions(table.rows, before);
      var version := MaxVersion(table.rows) + 1;
      assert Revision(|table.rows|, version, Published, document, actor) == Revision(|before|, |before| + 1, Published, document, actor);
      created := table.Create(version, Published, document, actor);
    }
  }

  // ---------------------------------------------------------------- every step

  lemma NextVersion(rows: History)
    requires Inv(rows)
    ensures MaxVersion(rows) == |rows|
  {
    if rows != [] {
      assert rows[|rows| - 1].version == |rows|;
    }
  }

  lemma SameVersions(rows: History, others: History)
    requires |rows| == |others| && forall i :: 0 <= i < |rows| ==> rows[i].version == others[i].version
    ensures MaxVersion(rows) == MaxVersion(others)
  {
    assert forall i :: 0 <= i < |rows| ==> others[i].version == rows[i].version;
  }

  lemma TheCurrent(rows: History, i: nat)
    requires Inv(rows) && i < |rows| && rows[i].status.Published?
    ensures Find(rows, Current) == Some(i)
  {
  }

  lemma RetiredHasNoCurrent(rows: History)
    requires Inv(rows)
    ensures forall i :: 0 <= i < |rows| ==> Retired(rows)[i] == rows[i].(status := Retired(rows)[i].status)
    ensures forall i :: 0 <= i < |rows| ==> Retired(rows)[i].status.Draft? == rows[i].status.Draft?
    ensures forall i :: 0 <= i < |rows| ==> !Retired(rows)[i].status.Published?
  {
  }

  /** Neither write of a rollback breaks a unique constraint. */
  lemma RetiringMeetsConstraints(rows: History)
    requires Inv(rows)
    ensures Constraints(Retired(rows)) && forall i :: 0 <= i < |rows| ==> Retired(rows)[i].version == rows[i].version
  {
    RetiredHasNoCurrent(rows);
  }

  lemma AppendingMeetsConstraints(rows: History, document: Document, actor: nat)
    requires Inv(rows)
    ensures Constraints(Retired(rows) + [Revision(|rows|, |rows| + 1, Published, document, actor)])
  {
    RetiredHasNoCurrent(rows);
    var rows' := Retired(rows) + [Revision(|rows|, |rows| + 1, Published, document, actor)];
    assert forall i :: 0 <= i < |rows'| ==> rows'[i].version == i + 1 && rows'[i].id == i;
  }

  lemma DraftKeepsInv(rows: History, r: Revision)
    requires Inv(rows) && r.version == |rows| + 1 && r.id == |rows| && r.status.Draft?
    ensures Inv(rows + [r])
  {
    assert (rows + [r])[..|rows|] == rows;
  }

  /** Publishing a draft after the current revision, or the first one to be published. */
  lemma PublishKeepsInv(rows: History, t: nat)
    requires Inv(rows) && t < |rows| && rows[t].status.Draft?
    requires Find(rows, Current).Some? ==> Find(rows, Current).value < t
    ensures Inv(WithStatus(Retired(rows), t, Published))
  {
    RetiredHasNoCurrent(rows);
    var rows' := WithStatus(Retired(rows), t, Published);
    forall i | 0 <= i < |rows| && rows'[i].status.Superseded? ensures i < t {
      assert !rows[i].status.Draft?;
    }
    assert Hits(rows'[t], Current);
  }

  lemma AppendKeepsInv(rows: History, r: Revision)
    requires Inv(rows) && r.version == |rows| + 1 && r.id == |rows| && r.status.Published?
    ensures Inv(Retired(rows) + [r])
  {
    RetiredHasNoCurrent(rows);
  }

  lemma CreateKeepsInv(validate: Validator, rows: History, document: Document, actor: nat)
    requires Inv(rows)
    ensures Inv(Apply(validate, rows, CreateDraft(document, actor)).1)
  {
    NextVersion(rows);
    if validate(document, false).Some? {
      DraftKeepsInv(rows, Revision(|rows|, |rows| + 1, Draft, validate(document, false).value, actor));
    }
  }

  lemma PublishingKeepsInv(validate: Validator, rows: History, lookup: Lookup, notified: bool)
    requires Inv(rows)
    ensures Inv(Apply(validate, rows, Publish(lookup, notified)).1)
  {
    if Apply(validate, rows, Publish(lookup, notified)).1 != rows {
      PublishKeepsInv(rows, Find(rows, lookup).value);
    }
  }

  lemma RollbackKeepsInv(validate: Validator, rows: History, source: nat, actor: nat, notified: bool)
    requires Inv(rows)
    ensures Inv(Apply(validate, rows, Rollback(source, actor, notified)).1)
  {
    NextVersion(rows);
    var rows' := Apply(validate, rows, Rollback(source, actor, notified)).1;
    if rows' != rows {
      AppendKeepsInv(rows, rows'[|rows|]);
    }
  }

  lemma ApplyKeepsInv(validate: Validator, rows: History, c: Command)
    requires Inv(rows)
    ensures Inv(Apply(validate, rows, c).1)
  {
    match c {
      case CreateDraft(document, actor) => CreateKeepsInv(validate, rows, document, actor);
      case Publish(lookup, notified) => PublishingKeepsInv(validate, rows, lookup, notified);
      case Rollback(source, actor, notified) => RollbackKeepsInv(validate, rows, source, actor, notified);
    }
  }

  /** Statuses only go forward. */
  function Rank(s: Status): nat {
    match s case Draft => 0 case Published => 1 case Superseded => 2
  }

  /** Nothing is lost, no document changes, and a current revision only gives way to a later one. */
  ghost predicate Follows(before: History, after: History) {
    && |before| <= |after|
    && (forall i :: 0 <= i < |before| ==>
          after[i] == before[i].(status := after[i].status) && Rank(before[i].status) <= Rank(after[i].status))
    && (Find(before, Current).Some? ==>
          Find(after, Current).Some? && Find(before, Current).value <= Find(after, Current).value)
  }

  lemma DraftFollows(rows: History, r: Revision)
    requires Inv(rows) && r.status.Draft?
    ensures Follows(rows, rows + [r])
  {
    assert (rows + [r])[..|rows|] == rows;
  }

  lemma PublishFollows(rows: History, t: nat)
    requires Inv(rows) && t < |rows| && rows[t].status.Draft?
    requires Find(rows, Current).Some? ==> Find(rows, Current).value < t
    ensures Follows(rows, WithStatus(Retired(rows), t, Published))
  {
    RetiredHasNoCurrent(rows);
    PublishKeepsInv(rows, t);
    TheCurrent(WithStatus(Retired(rows), t, Published), t);
  }

  lemma AppendFollows(rows: History, r: Revision)
    requires Inv(rows) && r.version == |rows| + 1 && r.id == |rows| && r.status.Published?
    ensures Follows(rows, Retired(rows) + [r])
  {
    RetiredHasNoCurrent(rows);
  }

  lemma ApplyFollows(validate: Validator, rows: History, c: Command)
    requires Inv(rows)
    ensures Follows(rows, Apply(validate, rows, c).1)
  {
    NextVersion(rows);
    var rows' := Apply(validate, rows, c).1;
    if rows' != rows {
      match c {
        case CreateDraft(_, _) => DraftFollows(rows, rows'[|rows|]);
        case Publish(lookup, _) => PublishFollows(rows, Find(rows, lookup).value);
        case Rollback(_, _, _) => AppendFollows(rows, rows'[|rows|]);
      }
    }
  }

  lemma FollowsTransitive(a: History, b: History, c: History)
    requires Follows(a, b) && Follows(b, c)
    ensures Follows(a, c)
  {
    forall i | 0 <= i < |a|
      ensures c[i] == a[i].(status := c[i].status) && Rank(a[i].status) <= Rank(c[i].status)
    {
      assert b[i] == a[i].(status := b[i].status);
    }
  }

  // ---------------------------------------------------------------- every run

  /** Over every sequence of commands the history keeps its shape and only grows. */
  lemma {:induction false} RunKeepsInv(validate: Validator, rows: History, commands: seq<Command>)
    requires Inv(rows)
    ensures Inv(Run(validate, rows, commands)) && Follows(rows, Run(validate, rows, commands))
    decreases |commands|
  {
    if commands != [] {
      var n := |commands| - 1;
      var before := Run(validate, rows, commands[..n]);
      RunKeepsInv(validate, rows, commands[..n]);
      ApplyKeepsInv(validate, before, commands[n]);
      ApplyFollows(validate, before, commands[n]);
      FollowsTransitive(rows, before, Run(validate, rows, commands));
    }
  }

  /** From an empty history: versions are exactly 1 to n, and once anything was published one revision always is. */
  lemma HistoryShape(validate: Validator, commands: seq<Command>)
    ensures var rows := Run(validate, [], commands);
      && (forall i :: 0 <= i < |rows| ==> rows[i].version == i + 1)
      && (forall i, j :: 0 <= i < |rows| && 0 <= j < |rows| && rows[i].status.Published? && rows[j].status.Published? ==> i == j)
      && ((exists i :: 0 <= i < |rows| && !rows[i].status.Draft?) <==> (exists i :: 0 <= i < |rows| && rows[i].status.Published?))
      && (forall i, j :: 0 <= i < |rows| && 0 <= j < |rows| && rows[i].status.Superseded? && rows[j].status.Published? ==>
            rows[i].version < rows[j].version)
  {
    RunKeepsInv(validate, [], commands);
    var rows := Run(validate, [], commands);
    if i :| 0 <= i < |rows| && !rows[i].status.Draft? {
      assert rows[Find(rows, Current).value].status.Published?;
    }
  }

  /** When the current revision changes, its version goes up; the one it replaces never comes back. */
  lemma CurrentOnlyAdvances(validate: Validator, rows: History, commands: seq<Command>, i: nat)
    requires Inv(rows) && i < |rows| && rows[i].status.Published?
    ensures var later := Run(validate, rows, commands);
      && |rows| <= |later|
      && (exists j :: 0 <= j < |later| && later[j].status.Published?)
      && (forall j :: 0 <= j < |later| && later[j].status.Published? ==>
            j == i || (later[j].version > rows[i].version && later[i].status.Superseded?))
  {
    RunKeepsInv(validate, rows, commands);
    var later := Run(validate, rows, commands);
    TheCurrent(rows, i);
    var now := Find(later, Current).value;
    assert Hits(later[now], Current) && later[now].status.Published?;
    assert later[i] == rows[i].(status := later[i].status);
    forall j | 0 <= j < |later| && later[j].status.Published?
      ensures j == i || (later[j].version > rows[i].version && later[i].status.Superseded?)
    {
      TheCurrent(later, j);
    }
  }

  lemma OldDraftStep(validate: Validator, rows: History, c: Command, d: nat)
    requires Inv(rows) && d < |rows| && rows[d].status.Draft?
    requires Find(rows, Current).Some? && d < Find(rows, Current).value
    ensures d < |Apply(validate, rows, c).1| && Apply(validate, rows, c).1[d] == rows[d]
  {
    var rows' := Apply(validate, rows, c).1;
    assert Retired(rows)[d] == rows[d];
    if rows' != rows {
      match c {
        case CreateDraft(_, _) => assert rows' == rows + [rows'[|rows|]];
        case Publish(lookup, _) =>
          var t := Find(rows, lookup).value;
          assert d < t && rows' == WithStatus(Retired(rows), t, Published);
        case Rollback(_, _, _) => assert rows' == Retired(rows) + [rows'[|rows|]];
      }
    }
  }

  /** A draft older than the current revision can never be published. */
  lemma {:induction false} OldDraftsStay(validate: Validator, rows: History, commands: seq<Command>, d: nat)
    requires Inv(rows) && d < |rows| && rows[d].status.Draft?
    requires Find(rows, Current).Some? && d < Find(rows, Current).value
    ensures |rows| <= |Run(validate, rows, commands)| && Run(validate, rows, commands)[d] == rows[d]
    decreases |commands|
  {
    if commands != [] {
      var n := |commands| - 1;
      RunKeepsInv(validate, rows, commands);
      RunKeepsInv(validate, rows, commands[..n]);
      OldDraftsStay(validate, rows, commands[..n], d);
      OldDraftStep(validate, Run(validate, rows, commands[..n]), commands[n], d);
    }
  }

  // ---------------------------------------------------------------- when a step succeeds

  /** A revision is published exactly if it is a valid draft later than everything published so far. */
  lemma PublishSucceedsIff(validate: Validator, rows: History, version: nat)
    requires Inv(rows)
    ensures Apply(validate, rows, Publish(ByVersion(version), true)).0.Ok? <==>
      && 1 <= version <= |rows| && rows[version - 1].status.Draft?
      && validate(rows[version - 1].document, false).Some?
      && forall i :: version <= i < |rows| ==> !rows[i].status.Published?
  {
    if 1 <= version <= |rows| {
      assert Hits(rows[version - 1], ByVersion(version));
      assert Find(rows, ByVersion(version)) == Some(version - 1);
    }
  }

  /** A rollback succeeds exactly for a revision once published whose document still validates, and republishes it. */
  lemma RollbackSucceedsIff(validate: Validator, rows: History, version: nat, actor: nat)
    requires Inv(rows)
    ensures var (r, rows') := Apply(validate, rows, Rollback(version, actor, true));
      && (r.Ok? <==> 1 <= version <= |rows| && !rows[version - 1].status.Draft?
                     && validate(rows[version - 1].document, true).Some?)
      && (r.Ok? ==> Find(rows', Current) == Some(|rows|) && rows'[|rows|].version == |rows| + 1
                    && Some(rows'[|rows|].document) == validate(rows[version - 1].document, true))
  {
    NextVersion(rows);
    if 1 <= version <= |rows| {
      assert Hits(rows[version - 1], ByVersion(version));
      assert Find(rows, ByVersion(version)) == Some(version - 1);
    }
  }

  /** A draft is the validated document, as the next version, by whoever wrote it. */
  lemma CreateOutcome(validate: Validator, rows: History, document: Document, actor: nat)
    requires Inv(rows)
    ensures var (r, rows') := Apply(validate, rows, Command.CreateDraft(document, actor));
      match validate(document, false)
      case None => r == Err(Invalid) && rows' == rows
      case Some(validated) => r == Ok(Revision(|rows|, |rows| + 1, Draft, validated, actor)) && rows' == rows + [r.value]
  {
    NextVersion(rows);
  }

  /** The rows when revision `t` takes over from the current one: nothing else changes. */
  ghost predicate TakesOver(rows: History, rows': History, t: nat)
    requires t < |rows| == |rows'|
  {
    && rows'[t] == rows[t].(status := Published)
    && forall i :: 0 <= i < |rows| && i != t ==>
         rows'[i] == if rows[i].status.Published? then rows[i].(status := Superseded) else rows[i]
  }

  lemma RetiredIs(rows: History, i: nat)
    requires Inv(rows) && i < |rows|
    ensures Retired(rows)[i] == if rows[i].status.Published? then rows[i].(status := Superseded) else rows[i]
  {
    if rows[i].status.Published? {
      TheCurrent(rows, i);
    }
  }

  lemma FoundAt(rows: History, target: Lookup, t: nat)
    requires Inv(rows) && t < |rows| && (target == ByVersion(t + 1) || target == ById(t))
    ensures Find(rows, target) == Some(t)
  {
    assert Hits(rows[t], target);
    var at := Find(rows, target).value;
    assert Hits(rows[at], target) && rows[at].version == at + 1 && rows[at].id == at;
  }

  /** A revision that is the current one is as late as any. */
  lemma CurrentBefore(rows: History, t: nat)
    requires Inv(rows) && t < |rows|
    ensures Find(rows, Current).Some? && t <= Find(rows, Current).value <==>
      exists i :: t <= i < |rows| && rows[i].status.Published?
  {
    if i :| t <= i < |rows| && rows[i].status.Published? {
      TheCurrent(rows, i);
    }
  }

  /** Publishing by version or by id: why it is refused, and what it changes and answers when it is not. */
  lemma PublishOutcome(validate: Validator, rows: History, target: Lookup, notified: bool, t: nat)
    requires Inv(rows) && (target == ByVersion(t + 1) || target == ById(t))
    ensures var (r, rows') := Apply(validate, rows, Command.Publish(target, notified));
      if t >= |rows| then r == Err(NotFound) && rows' == rows
      else if !rows[t].status.Draft? then r == Err(WrongStatus) && rows' == rows
      else if validate(rows[t].document, false).None? then r == Err(Invalid) && rows' == rows
      else if exists i :: t <= i < |rows| && rows[i].status.Published? then r == Err(WrongStatus) && rows' == rows
      else
        && |rows'| == |rows| && TakesOver(rows, rows', t)
        && r == if notified then Ok(rows[t].(status := Published)) else Err(CommittedUnnotified(t + 1))
  {
    if t < |rows| {
      FoundAt(rows, target, t);
      CurrentBefore(rows, t);
      forall i | 0 <= i < |rows| ensures Retired(rows)[i] == if rows[i].status.Published? then rows[i].(status := Superseded) else rows[i] {
        RetiredIs(rows, i);
      }
    }
  }

  /** Rolling back: why it is refused, and what it appends and answers when it is not. */
  lemma RollbackOutcome(validate: Validator, rows: History, version: nat, actor: nat, notified: bool)
    requires Inv(rows)
    ensures var (r, rows') := Apply(validate, rows, Command.Rollback(version, actor, notified));
      if !(1 <= version <= |rows|) then r == Err(NotFound) && rows' == rows
      else if rows[version - 1].status.Draft? then r == Err(WrongStatus) && rows' == rows
      else
        match validate(rows[version - 1].document, true)
        case None => r == Err(Invalid) && rows' == rows
        case Some(validated) =>
          var created := Revision(|rows|, |rows| + 1, Published, validated, actor);
          && |rows'| == |rows| + 1 && rows'[|rows|] == created
          && (forall i :: 0 <= i < |rows| ==>
                rows'[i] == if rows[i].status.Published? then rows[i].(status := Superseded) else rows[i])
          && r == if notified then Ok(created) else Err(CommittedUnnotified(|rows| + 1))
  {
    NextVersion(rows);
    if 1 <= version <= |rows| {
      FoundAt(rows, ByVersion(version), version - 1);
      forall i | 0 <= i < |rows| ensures Retired(rows)[i] == if rows[i].status.Published? then rows[i].(status := Superseded) else rows[i] {
        RetiredIs(rows, i);
      }
    }
  }

  /** A step that fails changes nothing, except that a failed notification comes after the commit. */
  lemma FailureChangesNothing(validate: Validator, rows: History, c: Command)
    requires Inv(rows)
    ensures var (r, rows') := Apply(validate, rows, c);
      r.Err? && rows' != rows ==>
        r.error.CommittedUnnotified? && Find(rows', Current).Some? && rows'[Find(rows', Current).value].version == r.error.version
  {
    var (r, rows') := Apply(validate, rows, c);
    if r.Err? && rows' != rows {
      ApplyKeepsInv(validate, rows, c);
      TheCurrent(rows', if c.Publish? then Find(rows, c.target).value else |rows|);
    }
  }
}
