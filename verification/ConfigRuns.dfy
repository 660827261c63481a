/**
 Saving and loading of firmware/src/config/Config.cpp over whole runs: two keys,
 each written in one piece, and saves that may be cut short or fail at any write.
 */
module ConfigRuns {
  import opened Basics
  import opened ConfigRecord

  const PRIMARY_KEY := "config"
  const BACKUP_KEY := "config.bak"

  type Values = map<string, string>

  datatype Status = Loaded | Migrated | RecoveredFromBackup | DefaultsMissing | DefaultsCorrupt | DefaultsFutureSchema

  datatype Report = Report(status: Status, fromSchema: int, usedBackup: bool)

  /** What a key's text is good for. */
  function ReadingAt(values: Values, key: string, read: string -> Reading): Reading {
    if key in values then read(values[key]) else Unusable
  }

  function BodyOf(payload: string, read: string -> Reading): Option<string> {
    match read(payload)
    case Usable(_, body) => Some(body)
    case _ => None
  }

  /** Why the primary was of no use. */
  function Missed(values: Values, read: string -> Reading): Report {
    if PRIMARY_KEY !in values then Report(DefaultsMissing, 0, false)
    else
      match read(values[PRIMARY_KEY])
      case Future(version) => Report(DefaultsFutureSchema, version, false)
      case _ => Report(DefaultsCorrupt, 0, false)
  }

  /** The settings that are loaded, none meaning the defaults. */
  function Load(values: Values, read: string -> Reading): (Report, Option<string>) {
    match ReadingAt(values, PRIMARY_KEY, read)
    case Usable(version, body) => (Report(if version < CURRENT_SCHEMA then Migrated else Loaded, version, false), Some(body))
    case _ =>
      match ReadingAt(values, BACKUP_KEY, read)
      case Usable(version, body) => (Report(RecoveredFromBackup, version, true), Some(body))
      case _ => (Missed(values, read), None)
  }

  /** A save; the flags say which of its writes reach the storage. A power cut
      before the end is a save whose later writes do not. */
  function Save(values: Values, payload: string, limit: nat, backupLands: bool, primaryLands: bool): (Values, bool) {
    if |payload| > limit then (values, false)
    else
      var due := PRIMARY_KEY in values && values[PRIMARY_KEY] != payload;
      var kept := if due && backupLands then values[BACKUP_KEY := values[PRIMARY_KEY]] else values;
      (if primaryLands then kept[PRIMARY_KEY := payload] else kept, primaryLands)
  }

  /** A save that is cut off between its writes loses nothing, with one exception:
      when the primary was already of no use and the backup was all there was, the
      backup is what the cut-off save has overwritten. */
  lemma CutSaveKeepsIff(values: Values, payload: string, limit: nat, read: string -> Reading)
    requires read(payload).Usable? && |payload| <= limit
    ensures Load(Save(values, payload, limit, true, false).0, read).1 == Load(values, read).1
       <==> !(PRIMARY_KEY in values && !read(values[PRIMARY_KEY]).Usable? && ReadingAt(values, BACKUP_KEY, read).Usable?)
  {
    KeysDiffer();
  }

  // --- runs -----------------------------------------------------------------------------------------

  datatype Saving = Saving(payload: string, backupLands: bool, primaryLands: bool)

  /** The storage, the payloads the primary has held, a repeat counting once, and
      which of them the backup holds. */
  datatype Record = Record(values: Values, held: seq<string>, kept: Option<int>)

  const EMPTY := Record(map[], [], None)

  function Apply(r: Record, s: Saving, limit: nat): Record {
    var (values, ok) := Save(r.values, s.payload, limit, s.backupLands, s.primaryLands);
    var backedUp := |s.payload| <= limit && PRIMARY_KEY in r.values && r.values[PRIMARY_KEY] != s.payload && s.backupLands;
    Record(values,
           if ok && (r.held == [] || r.held[|r.held| - 1] != s.payload) then r.held + [s.payload] else r.held,
           if backedUp then Some(|r.held| - 1) else r.kept)
  }

  function Run(savings: seq<Saving>, limit: nat): Record
    decreases |savings|
  {
    if savings == [] then EMPTY else Apply(Run(savings[..|savings| - 1], limit), savings[|savings| - 1], limit)
  }

  /** What is saved can be read back. */
  predicate AllUsable(savings: seq<Saving>, read: string -> Reading) {
    forall i :: 0 <= i < |savings| ==> read(savings[i].payload).Usable?
  }

  // --- the same, told from the saves alone ---------------------------------------------------------

  /** What the primary holds after some saves. */
  function Primary(savings: seq<Saving>, limit: nat): Option<string>
    decreases |savings|
  {
    if savings == [] then None
    else
      var last := savings[|savings| - 1];
      if |last.payload| <= limit && last.primaryLands then Some(last.payload) else Primary(savings[..|savings| - 1], limit)
  }

  /** Save i changes the primary. */
  predicate Changes(savings: seq<Saving>, i: nat, limit: nat) {
    i < |savings| &&
    var s := savings[i];
    |s.payload| <= limit && s.primaryLands && Primary(savings[..i], limit) != Some(s.payload)
  }

  /** Save i has something else to back up, and its backup lands. */
  predicate BacksUp(savings: seq<Saving>, i: nat, limit: nat) {
    i < |savings| &&
    var s := savings[i];
    |s.payload| <= limit && s.backupLands && Primary(savings[..i], limit) !in {None, Some(s.payload)}
  }

  /** How often the primary has changed. */
  function Changed(savings: seq<Saving>, limit: nat): nat
    decreases |savings|
  {
    if savings == [] then 0
    else Changed(savings[..|savings| - 1], limit) + if Changes(savings, |savings| - 1, limit) then 1 else 0
  }

  /** A backup has landed from which on the primary has changed at most once. */
  ghost predicate BackupCurrent(savings: seq<Saving>, limit: nat) {
    exists i: nat :: BacksUp(savings, i, limit) && Changed(savings, limit) <= Changed(savings[..i], limit) + 1
  }

  // --- what a run keeps -------------------------------------------------------------------------------

  lemma KeysDiffer()
    ensures PRIMARY_KEY != BACKUP_KEY
  {
    assert |PRIMARY_KEY| != |BACKUP_KEY|;
  }

  /** The primary is what it held last, the backup is the payload that is kept. */
  predicate Holds(r: Record, read: string -> Reading) {
    && (PRIMARY_KEY in r.values <==> r.held != [])
    && (r.held != [] ==> r.values[PRIMARY_KEY] == r.held[|r.held| - 1])
    && (forall i :: 0 <= i < |r.held| ==> read(r.held[i]).Usable?)
    && (match r.kept
        case None => BACKUP_KEY !in r.values
        case Some(k) => 0 <= k < |r.held| && BACKUP_KEY in r.values && r.values[BACKUP_KEY] == r.held[k])
  }

  lemma SavingHolds(r: Record, s: Saving, limit: nat, read: string -> Reading)
    requires Holds(r, read) && read(s.payload).Usable?
    ensures Holds(Apply(r, s, limit), read)
  {
    KeysDiffer();
  }

  lemma {:induction false} RunHolds(savings: seq<Saving>, limit: nat, read: string -> Reading)
    requires AllUsable(savings, read)
    ensures Holds(Run(savings, limit), read)
    decreases |savings|
  {
    hide Apply, Holds;
    if savings != [] {
      RunHolds(savings[..|savings| - 1], limit, read);
      SavingHolds(Run(savings[..|savings| - 1], limit), savings[|savings| - 1], limit, read);
    } else {
      NothingHeld(read);
    }
  }

  lemma NothingHeld(read: string -> Reading)
    ensures Holds(EMPTY, read)
  {
  }

  /** The record and the saves agree. */
  lemma {:induction false} RunTells(savings: seq<Saving>, limit: nat, read: string -> Reading)
    requires AllUsable(savings, read)
    ensures var r := Run(savings, limit);
      && |r.held| == Changed(savings, limit)
      && Primary(savings, limit) == if r.held == [] then None else Some(r.held[|r.held| - 1])
    decreases |savings|
  {
    hide Holds;
    if savings != [] {
      var before := savings[..|savings| - 1];
      RunTells(before, limit, read);
      RunHolds(before, limit, read);
      HoldsPrimary(Run(before, limit), read);
    }
  }

  lemma HoldsPrimary(r: Record, read: string -> Reading)
    requires Holds(r, read)
    ensures PRIMARY_KEY in r.values <==> r.held != []
    ensures r.held != [] ==> r.values[PRIMARY_KEY] == r.held[|r.held| - 1]
  {
  }

  lemma Earlier(savings: seq<Saving>, i: nat, limit: nat)
    requires i < |savings| - 1
    ensures savings[..|savings| - 1][..i] == savings[..i]
    ensures BacksUp(savings[..|savings| - 1], i, limit) <==> BacksUp(savings, i, limit)
  {
    assert savings[..|savings| - 1][..i] == savings[..i];
  }

  lemma {:induction false} FewerChanged(savings: seq<Saving>, i: nat, limit: nat)
    requires i <= |savings|
    ensures Changed(savings[..i], limit) <= Changed(savings, limit)
    decreases |savings|
  {
    if i == |savings| {
      assert savings[..i] == savings;
    } else {
      FewerChanged(savings[..|savings| - 1], i, limit);
      assert savings[..|savings| - 1][..i] == savings[..i];
    }
  }

  lemma NeverBacksUp(limit: nat)
    ensures Run([], limit).kept == None && forall j: nat :: !BacksUp([], j, limit)
  {
  }

  /** The last save moves the backup exactly when it backs up. */
  lemma LastBacksUp(savings: seq<Saving>, limit: nat, read: string -> Reading)
    requires AllUsable(savings, read) && savings != []
    ensures var before := savings[..|savings| - 1];
      && AllUsable(before, read)
      && Run(savings, limit).kept ==
         if BacksUp(savings, |savings| - 1, limit) then Some(Changed(before, limit) - 1) else Run(before, limit).kept
  {
    hide Primary, Changed, Holds;
    var before := savings[..|savings| - 1];
    RunTells(before, limit, read);
    RunHolds(before, limit, read);
    HoldsPrimary(Run(before, limit), read);
  }

  /** The backup holds what the primary held when the last backup landed. */
  lemma {:induction false} KeptIsLast(savings: seq<Saving>, limit: nat, read: string -> Reading) returns (i: nat)
    requires AllUsable(savings, read)
    ensures var kept := Run(savings, limit).kept;
      && (kept.Some? ==> BacksUp(savings, i, limit) && kept.value == Changed(savings[..i], limit) - 1)
      && (forall j: nat :: BacksUp(savings, j, limit) ==> kept.Some? && Changed(savings[..j], limit) - 1 <= kept.value)
    decreases |savings|
  {
    hide Primary, Changed, Run, Apply, Holds;
    if savings == [] {
      NeverBacksUp(limit);
      i := 0;
    } else {
      var last := |savings| - 1;
      var before := savings[..last];
      i := KeptIsLast(before, limit, read);
      LastBacksUp(savings, limit, read);
      if BacksUp(savings, last, limit) {
        forall j: nat | BacksUp(savings, j, limit) ensures Changed(savings[..j], limit) <= Changed(before, limit) {
          FewerChanged(before, j, limit);
          assert before[..j] == savings[..j];
        }
        i := last;
      } else {
        forall j: nat | j < last ensures savings[..last][..j] == savings[..j] && (BacksUp(before, j, limit) <==> BacksUp(savings, j, limit)) {
          Earlier(savings, j, limit);
        }
      }
    }
  }

  // --- what is loaded -----------------------------------------------------------------------------------

  /** In every run of saves, cut off or failing wherever they may, the settings of
      the last one that reached the primary are loaded, from the primary. */
  lemma LastSavedIsLoaded(savings: seq<Saving>, limit: nat, read: string -> Reading)
    requires AllUsable(savings, read)
    ensures var r := Run(savings, limit); var (report, body) := Load(r.values, read);
      if r.held == [] then body == None
      else body.Some? && body == BodyOf(r.held[|r.held| - 1], read) && !report.usedBackup
  {
    hide Run;
    RunHolds(savings, limit, read);
  }

  /** If the primary is then destroyed, what is loaded is exactly the payload that
      is kept, and nothing when no backup has ever landed. */
  lemma DestroyedLoadsKept(savings: seq<Saving>, limit: nat, read: string -> Reading, broken: string)
    requires AllUsable(savings, read) && !read(broken).Usable?
    ensures var r := Run(savings, limit); var (report, body) := Load(r.values[PRIMARY_KEY := broken], read);
      match r.kept
      case None => body == None
      case Some(k) => 0 <= k < |r.held| && body.Some? && body == BodyOf(r.held[k], read) && report.usedBackup
  {
    hide Run;
    KeysDiffer();
    RunHolds(savings, limit, read);
  }

  /** That costs all settings if and only if none of the saves backed anything up. */
  lemma DestroyedCostsAllIff(savings: seq<Saving>, limit: nat, read: string -> Reading, broken: string)
    requires AllUsable(savings, read) && !read(broken).Usable?
    ensures Load(Run(savings, limit).values[PRIMARY_KEY := broken], read).1 == None
       <==> forall i: nat :: !BacksUp(savings, i, limit)
  {
    hide Run, BacksUp, Load;
    var i := KeptIsLast(savings, limit, read);
    DestroyedLoadsKept(savings, limit, read, broken);
  }

  /** And at most the last change if and only if a backup has landed from which on
      the primary has changed at most once: the kept payload is then one of the last
      two the primary held. */
  lemma KeptRecentIff(savings: seq<Saving>, limit: nat, read: string -> Reading)
    requires AllUsable(savings, read)
    ensures var r := Run(savings, limit);
      r.kept.Some? && r.kept.value >= |r.held| - 2 <==> BackupCurrent(savings, limit)
  {
    hide Run, BacksUp, Changed;
    var i := KeptIsLast(savings, limit, read);
    RunTells(savings, limit, read);
  }

  /** One of the two last settings. */
  predicate Recent(r: Record, body: Option<string>, read: string -> Reading)
    requires |r.held| >= 2
  {
    body in {BodyOf(r.held[|r.held| - 1], read), BodyOf(r.held[|r.held| - 2], read)}
  }

  /** The settings that are loaded are among the last two exactly then, but for
      older ones that happen to be the same. */
  lemma DestroyedCostsOneChangeIff(savings: seq<Saving>, limit: nat, read: string -> Reading, broken: string)
    requires AllUsable(savings, read) && !read(broken).Usable?
    requires |Run(savings, limit).held| >= 2
    ensures var r := Run(savings, limit); var body := Load(r.values[PRIMARY_KEY := broken], read).1;
      && (BackupCurrent(savings, limit) ==> body.Some? && Recent(r, body, read))
      && ((forall k :: 0 <= k < |r.held| - 2 ==> !Recent(r, BodyOf(r.held[k], read), read)) ==>
            (body.Some? && Recent(r, body, read) <==> BackupCurrent(savings, limit)))
  {
    hide Run, BackupCurrent, Load, BodyOf;
    DestroyedLoadsKept(savings, limit, read, broken);
    KeptRecentIff(savings, limit, read);
  }

  /** No save goes on to the primary when its backup has failed. */
  predicate BackupsLand(savings: seq<Saving>) {
    forall i :: 0 <= i < |savings| ==> savings[i].primaryLands ==> savings[i].backupLands
  }

  /** In particular when no backup fails. */
  lemma {:induction false} LandedIsCurrent(savings: seq<Saving>, limit: nat)
    requires BackupsLand(savings) && Changed(savings, limit) >= 2
    ensures BackupCurrent(savings, limit)
    decreases |savings|
  {
    hide Primary;
    var last := |savings| - 1;
    var before := savings[..last];
    if Changes(savings, last, limit) {
      ChangedMeansHeld(before, limit);
      assert BacksUp(savings, last, limit);
    } else {
      LandedIsCurrent(before, limit);
      var i: nat :| BacksUp(before, i, limit) && Changed(before, limit) <= Changed(before[..i], limit) + 1;
      Earlier(savings, i, limit);
      assert BacksUp(savings, i, limit);
    }
  }

  lemma {:induction false} ChangedMeansHeld(savings: seq<Saving>, limit: nat)
    requires Changed(savings, limit) > 0
    ensures Primary(savings, limit) != None
    decreases |savings|
  {
    if !Changes(savings, |savings| - 1, limit) {
      ChangedMeansHeld(savings[..|savings| - 1], limit);
    }
  }

  lemma DestroyedCostsOneChange(savings: seq<Saving>, limit: nat, read: string -> Reading, broken: string)
    requires AllUsable(savings, read) && BackupsLand(savings) && !read(broken).Usable?
    requires |Run(savings, limit).held| >= 2
    ensures var r := Run(savings, limit); var (report, body) := Load(r.values[PRIMARY_KEY := broken], read);
      body.Some? && report.usedBackup && Recent(r, body, read)
  {
    hide Run, Load, BackupCurrent, BodyOf;
    RunTells(savings, limit, read);
    LandedIsCurrent(savings, limit);
    DestroyedLoadsKept(savings, limit, read, broken);
    DestroyedCostsOneChangeIff(savings, limit, read, broken);
  }

  /** A save does not look at whether its backup worked: after one that failed,
      destroying the primary can cost everything. */
  lemma {:induction false} FailedBackupCostsAll(first: string, second: string, limit: nat, read: string -> Reading, broken: string)
    requires read(first).Usable? && read(second).Usable? && !read(broken).Usable? && |first| <= limit && |second| <= limit
    ensures var r := Run([Saving(first, true, true), Saving(second, false, true)], limit);
      Load(r.values[PRIMARY_KEY := broken], read).1 == None
  {
    hide Run, Load;
    var savings := [Saving(first, true, true), Saving(second, false, true)];
    assert savings[..0] == [];
    forall i: nat ensures !BacksUp(savings, i, limit) {
    }
    DestroyedCostsAllIff(savings, limit, read, broken);
  }

  // --- what is reported -----------------------------------------------------------------------------

  /** What becomes of the primary after the last save. */
  datatype Damage = Whole | Gone | Broken(text: string)

  function Damaged(values: Values, damage: Damage): Values {
    match damage
    case Whole => values
    case Gone => values - {PRIMARY_KEY}
    case Broken(text) => values[PRIMARY_KEY := text]
  }

  /** What a load reports about a primary that was saved last. */
  predicate ReportsSaved(report: Report, saved: Option<string>, read: string -> Reading) {
    if saved == None then report == Report(DefaultsMissing, 0, false)
    else
      match read(saved.value)
      case Usable(version, _) => report == Report(if version < CURRENT_SCHEMA then Migrated else Loaded, version, false)
      case _ => false
  }

  /** And about one that is lost, with no backup. */
  predicate ReportsLost(report: Report, damage: Damage, read: string -> Reading) {
    if !damage.Broken? then report == Report(DefaultsMissing, 0, false)
    else
      match read(damage.text)
      case Future(version) => report == Report(DefaultsFutureSchema, version, false)
      case _ => report == Report(DefaultsCorrupt, 0, false)
  }

  /** In every run the report says what happened: with the primary whole, that it was
      read, and from which schema if an older one, or that nothing was ever saved; with
      the primary gone or unreadable, that the backup was used exactly when some save
      has backed anything up, and otherwise what was wrong with the primary. */
  lemma ReportTells(savings: seq<Saving>, limit: nat, read: string -> Reading, damage: Damage)
    requires AllUsable(savings, read) && (damage.Broken? ==> !read(damage.text).Usable?)
    ensures var r := Run(savings, limit); var report := Load(Damaged(r.values, damage), read).0;
      if damage.Whole? then ReportsSaved(report, Primary(savings, limit), read)
      else if r.kept == None then ReportsLost(report, damage, read)
      else 0 <= r.kept.value < |r.held| && report == Report(RecoveredFromBackup, SchemaOf(read(r.held[r.kept.value])), true)
    ensures Run(savings, limit).kept.Some? <==> exists i: nat :: BacksUp(savings, i, limit)
  {
    hide Run, Primary, BacksUp;
    KeysDiffer();
    RunHolds(savings, limit, read);
    RunTells(savings, limit, read);
    var i := KeptIsLast(savings, limit, read);
  }

  function SchemaOf(r: Reading): int {
    match r
    case Usable(version, _) => version
    case _ => 0
  }
}
