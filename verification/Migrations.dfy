/**
 `MigrationRunner` of infra/migrations/runner.py. A migration is applied in one transaction
 that also records it, so it is recorded or not at all; which applications fail is an argument.
 */
module Migrations {
  import opened Wrappers
  import opened Sequences

  type SequenceNumber = n: nat | n < 1000

  datatype MigrationFile = MigrationFile(sequence: SequenceNumber, description: string, checksum: string) {
    function Version(): string {
      VersionString(sequence)
    }
    function ToRecord(): Record {
      Record(Version(), checksum)
    }
  }

  /** A `:Migration` node. */
  datatype Record = Record(version: string, checksum: string)

  // ---------------------------------------------------------------------------
  // Version strings
  // ---------------------------------------------------------------------------

  function Digit(d: nat): char
    requires d < 10
  {
    '0' + d as char
  }

  /** `f"V{seq:03d}"`. */
  function VersionString(n: SequenceNumber): string {
    ['V', Digit(n / 100), Digit(n / 10 % 10), Digit(n % 10)]
  }

  /** Python's `<=` on strings. */
  predicate StringLe(a: string, b: string) {
    if a == "" then true
    else if b == "" then false
    else if a[0] != b[0] then a[0] < b[0]
    else StringLe(a[1..], b[1..])
  }

  lemma {:induction false} StringLeTransitive(a: string, b: string, c: string)
    requires StringLe(a, b) && StringLe(b, c)
    ensures StringLe(a, c)
  {
    if a != "" && a[0] == b[0] && b[0] == c[0] {
      StringLeTransitive(a[1..], b[1..], c[1..]);
    }
  }

  lemma StringLeCons(x: char, a: string, y: char, b: string)
    ensures StringLe([x] + a, [y] + b) <==> x < y || (x == y && StringLe(a, b))
  {
  }

  lemma VersionIsCons(n: SequenceNumber)
    ensures VersionString(n) == ['V'] + ([Digit(n / 100)] + ([Digit(n / 10 % 10)] + ([Digit(n % 10)] + "")))
  {
  }

  lemma Decimal(n: SequenceNumber)
    ensures n / 100 < 10 && n == n / 100 * 100 + n / 10 % 10 * 10 + n % 10
  {
  }

  /** The string test agrees with the numeric order on three-digit versions. */
  lemma VersionOrder(m: SequenceNumber, n: SequenceNumber)
    ensures StringLe(VersionString(m), VersionString(n)) <==> m <= n
  {
    var a, b, c := Digit(m / 100), Digit(m / 10 % 10), Digit(m % 10);
    var x, y, z := Digit(n / 100), Digit(n / 10 % 10), Digit(n % 10);
    VersionIsCons(m);
    VersionIsCons(n);
    StringLeCons('V', [a] + ([b] + ([c] + "")), 'V', [x] + ([y] + ([z] + "")));
    StringLeCons(a, [b] + ([c] + ""), x, [y] + ([z] + ""));
    StringLeCons(b, [c] + "", y, [z] + "");
    StringLeCons(c, "", z, "");
    Decimal(m);
    Decimal(n);
  }

  /** A version is a V and the three decimal digits of its number. */
  lemma VersionReads(n: SequenceNumber)
    ensures
      var v := VersionString(n);
      && |v| == 4 && v[0] == 'V'
      && (forall i :: 1 <= i < 4 ==> '0' <= v[i] <= '9')
      && (v[1] as int - '0' as int) * 100 + (v[2] as int - '0' as int) * 10 + (v[3] as int - '0' as int) == n
  {
    Decimal(n);
  }

  lemma VersionsDiffer(m: SequenceNumber, n: SequenceNumber)
    requires VersionString(m) == VersionString(n)
    ensures m == n
  {
    VersionOrder(m, n);
    VersionOrder(n, m);
  }

  // ---------------------------------------------------------------------------
  // Files and records
  // ---------------------------------------------------------------------------

  /** What `discover_migrations` returns for files with distinct versions. */
  ghost predicate Ordered(files: seq<MigrationFile>) {
    forall i, j :: 0 <= i < j < |files| ==> files[i].sequence < files[j].sequence
  }

  predicate IsRecorded(recorded: seq<Record>, version: string) {
    exists i :: 0 <= i < |recorded| && recorded[i].version == version
  }

  ghost function RecordsOf(files: seq<MigrationFile>): seq<Record> {
    seq(|files|, i requires 0 <= i < |files| => files[i].ToRecord())
  }

  lemma RecordsSnoc(recorded: seq<Record>, files: seq<MigrationFile>, i: nat)
    requires i < |files|
    ensures recorded + RecordsOf(files[..i + 1]) == recorded + RecordsOf(files[..i]) + [files[i].ToRecord()]
  {
  }

  /** The recorded migrations are the first of the files, in order and once each. */
  ghost predicate IsPrefix(files: seq<MigrationFile>, recorded: seq<Record>) {
    |recorded| <= |files| && recorded == RecordsOf(files[..|recorded|])
  }

  /** `version <= target`, where a missing or empty target admits everything. */
  predicate Within(file: MigrationFile, target: Option<string>) {
    target.None? || target.value == "" || StringLe(file.Version(), target.value)
  }

  function Pending(files: seq<MigrationFile>, recorded: seq<Record>, target: Option<string>): seq<MigrationFile> {
    if files == [] then []
    else
      var rest, last := Pending(files[..|files| - 1], recorded, target), files[|files| - 1];
      if !IsRecorded(recorded, last.Version()) && Within(last, target) then rest + [last] else rest
  }

  /** How many of the files the target admits; they come first. */
  ghost function Reach(files: seq<MigrationFile>, target: Option<string>): nat {
    if files == [] then 0
    else if Within(files[|files| - 1], target) then |files|
    else Reach(files[..|files| - 1], target)
  }

  lemma {:induction false} ReachSplits(files: seq<MigrationFile>, target: Option<string>)
    requires Ordered(files)
    ensures Reach(files, target) <= |files|
    ensures forall i :: 0 <= i < |files| ==> (Within(files[i], target) <==> i < Reach(files, target))
  {
    if files != [] {
      var last := files[|files| - 1];
      if Within(last, target) {
        forall i | 0 <= i < |files| ensures Within(files[i], target) {
          if target.Some? && target.value != "" {
            VersionOrder(files[i].sequence, last.sequence);
            StringLeTransitive(files[i].Version(), last.Version(), target.value);
          }
        }
      } else {
        ReachSplits(files[..|files| - 1], target);
      }
    }
  }

  lemma RecordedIffEarlier(files: seq<MigrationFile>, recorded: seq<Record>, i: nat)
    requires Ordered(files) && IsPrefix(files, recorded) && i < |files|
    ensures IsRecorded(recorded, files[i].Version()) <==> i < |recorded|
  {
    if i < |recorded| {
      assert recorded[i].version == files[i].Version();
    } else {
      forall j | 0 <= j < |recorded| ensures recorded[j].version != files[i].Version() {
        assert recorded[j].version == files[j].Version();
        if recorded[j].version == files[i].Version() {
          VersionsDiffer(files[j].sequence, files[i].sequence);
        }
      }
    }
  }

  function Max(a: nat, b: nat): nat {
    if a < b then b else a
  }

  /** What is pending is one contiguous stretch, from the first unrecorded file to the target. */
  lemma {:induction false} PendingIsStretch(files: seq<MigrationFile>, recorded: seq<Record>, target: Option<string>, n: nat)
    requires Ordered(files) && IsPrefix(files, recorded) && n <= |files|
    ensures Reach(files, target) <= |files|
    ensures Pending(files[..n], recorded, target) == Stretch(files, |recorded|, Reach(files, target), n)
  {
    if n == 0 {
      ReachSplits(files, target);
      assert files[..0] == [];
    } else {
      PendingIsStretch(files, recorded, target, n - 1);
      PendingNext(files, recorded, target, n - 1);
      PendingAt(files, recorded, target, n - 1);
      StretchNext(files, |recorded|, Reach(files, target), n - 1);
    }
  }

  lemma PendingAt(files: seq<MigrationFile>, recorded: seq<Record>, target: Option<string>, i: nat)
    requires Ordered(files) && IsPrefix(files, recorded) && i < |files|
    ensures !IsRecorded(recorded, files[i].Version()) && Within(files[i], target) <==>
            |recorded| <= i < Reach(files, target)
  {
    ReachSplits(files, target);
    RecordedIffEarlier(files, recorded, i);
  }

  lemma PendingNext(files: seq<MigrationFile>, recorded: seq<Record>, target: Option<string>, i: nat)
    requires i < |files|
    ensures Pending(files[..i + 1], recorded, target) ==
            Pending(files[..i], recorded, target) +
            if !IsRecorded(recorded, files[i].Version()) && Within(files[i], target) then [files[i]] else []
  {
    assert files[..i + 1][..i] == files[..i];
  }

  ghost function Stretch(files: seq<MigrationFile>, p: nat, reach: nat, n: nat): seq<MigrationFile>
    requires n <= |files|
  {
    var end := Min(n, reach);
    files[Min(end, p)..end]
  }

  lemma StretchNext(files: seq<MigrationFile>, p: nat, reach: nat, i: nat)
    requires i < |files|
    ensures Stretch(files, p, reach, i + 1) == Stretch(files, p, reach, i) + if p <= i < reach then [files[i]] else []
  {
  }

  // ---------------------------------------------------------------------------
  // run_pending
  // ---------------------------------------------------------------------------

  datatype Outcome =
    | Applied(count: nat)
    | ChecksumMismatch(version: string)
    | ApplyFailed(applied: nat)

  /** The first `n` applications all succeed. */
  ghost predicate NoFailure(fails: nat -> bool, n: nat) {
    forall j: nat :: j < n ==> !fails(j)
  }

  predicate ChecksumDiffers(recorded: seq<Record>, file: MigrationFile) {
    exists i :: 0 <= i < |recorded| && recorded[i].version == file.Version() && recorded[i].checksum != file.checksum
  }

  ghost predicate SomeContradicts(recorded: seq<Record>, files: seq<MigrationFile>) {
    exists i, j :: 0 <= i < |files| && 0 <= j < |recorded| && Contradicts(recorded[j], files[i])
  }

  /** The record is of the file's version, with another checksum. */
  ghost predicate Contradicts(record: Record, file: MigrationFile) {
    record.version == VersionString(file.sequence) && record.checksum != file.checksum
  }

  class MigrationRunner {
    /** The `:Migration` nodes of the database, in the order of their creation. */
    var recorded: seq<Record>

    constructor ()
      ensures recorded == []
    {
      recorded := [];
    }

    /** One transaction: the statements and the record, or neither. A second record of a version is refused. */
    method Apply(file: MigrationFile, dryRun: bool, fails: bool) returns (ok: bool)
      modifies this
      ensures ok <==> dryRun || (!fails && !IsRecorded(old(recorded), file.Version()))
      ensures recorded == if ok && !dryRun then old(recorded) + [file.ToRecord()] else old(recorded)
    {
      if dryRun {
        return true;
      }
      if fails || IsRecorded(recorded, file.Version()) {
        return false;
      }
      recorded := recorded + [file.ToRecord()];
      ok := true;
    }

    /** The loop over the pending migrations: it stops at the first that fails. */
    method ApplyAll(pending: seq<MigrationFile>, dryRun: bool, fails: nat -> bool) returns (outcome: Outcome)
      modifies this
      ensures outcome.Applied? || outcome.ApplyFailed?
      ensures dryRun ==> recorded == old(recorded) && outcome == Applied(|pending|)
      ensures !dryRun && outcome.Applied? ==>
                outcome.count == |pending| && recorded == old(recorded) + RecordsOf(pending)
      ensures outcome.ApplyFailed? ==>
                var n := outcome.applied;
                && n < |pending|
                && recorded == old(recorded) + RecordsOf(pending[..n])
                && (fails(n) || IsRecorded(recorded, pending[n].Version()))
      ensures !dryRun ==> NoFailure(fails, if outcome.Applied? then |pending| else outcome.applied)
    {
      for i := 0 to |pending|
        invariant recorded == if dryRun then old(recorded) else old(recorded) + RecordsOf(pending[..i])
        invariant !dryRun ==> NoFailure(fails, i)
      {
        var ok := Apply(pending[i], dryRun, fails(i));
        if !ok {
          return ApplyFailed(i);
        }
        RecordsSnoc(old(recorded), pending, i);
      }
      assert pending[..|pending|] == pending;
      outcome := Applied(|pending|);
    }

    /**
     `run_pending`. Whatever the target and wherever it fails, what is recorded stays a prefix
     of the sorted files; a run that succeeds records exactly the files up to the target.
     */
    method RunPending(files: seq<MigrationFile>, target: Option<string>, dryRun: bool, fails: nat -> bool)
      returns (outcome: Outcome)
      modifies this
      ensures dryRun ==> recorded == old(recorded) && outcome == Applied(|Pending(files, [], target)|)
      ensures dryRun && Ordered(files) ==> outcome == Applied(Reach(files, target))
      ensures outcome.ChecksumMismatch? <==>
                && !dryRun && Pending(files, old(recorded), target) != []
                && SomeContradicts(old(recorded), files)
      ensures Ordered(files) && IsPrefix(files, old(recorded)) ==> IsPrefix(files, recorded)
      ensures !dryRun && Ordered(files) && IsPrefix(files, old(recorded)) ==>
                var done, reach := |old(recorded)|, Max(|old(recorded)|, Reach(files, target));
                match outcome
                case Applied(count) => |recorded| == reach && count == reach - done && NoFailure(fails, count)
                case ApplyFailed(n) => |recorded| == done + n < reach && fails(n) && NoFailure(fails, n)
                case ChecksumMismatch(_) => false
    {
      var applied := if dryRun then [] else recorded;
      var pending := Pending(files, applied, target);
      if pending == [] {
        AllPendingApplied(files, applied, target, 0);
        return Applied(0);
      }
      var differing := FindMismatch(files, applied);
      if differing.Some? {
        ghost var j :| 0 <= j < |applied| && Contradicts(applied[j], files[differing.value]);
        NoMismatchInPrefix(files, applied, differing.value);
        return ChecksumMismatch(files[differing.value].Version());
      }
      outcome := ApplyAll(pending, dryRun, fails);
      if dryRun {
        AllPendingApplied(files, [], target, 0);
      } else {
        assert pending[..|pending|] == pending;
        AllPendingApplied(files, applied, target, if outcome.Applied? then |pending| else outcome.applied);
      }
    }
  }

  /** The checksum loop: the first file whose recorded checksum differs. */
  method FindMismatch(files: seq<MigrationFile>, recorded: seq<Record>) returns (r: Option<nat>)
    ensures r.None? ==> forall i, j :: 0 <= i < |files| && 0 <= j < |recorded| ==> !Contradicts(recorded[j], files[i])
    ensures r.Some? ==>
              && r.value < |files| && (exists j :: 0 <= j < |recorded| && Contradicts(recorded[j], files[r.value]))
              && (forall i, j :: 0 <= i < r.value && 0 <= j < |recorded| ==> !Contradicts(recorded[j], files[i]))
  {
    for i := 0 to |files|
      invariant forall k, j :: 0 <= k < i && 0 <= j < |recorded| ==> !Contradicts(recorded[j], files[k])
    {
      if ChecksumDiffers(recorded, files[i]) {
        return Some(i);
      }
    }
    r := None;
  }

  lemma NoMismatchInPrefix(files: seq<MigrationFile>, recorded: seq<Record>, i: nat)
    requires i < |files|
    ensures Ordered(files) && IsPrefix(files, recorded) ==> !ChecksumDiffers(recorded, files[i])
  {
    if Ordered(files) && IsPrefix(files, recorded) {
      forall j | 0 <= j < |recorded| && recorded[j].version == files[i].Version()
        ensures recorded[j].checksum == files[i].checksum
      {
        assert recorded[j] == files[j].ToRecord();
        VersionsDiffer(files[j].sequence, files[i].sequence);
      }
    }
  }

  /** Recording the first `n` pending migrations extends the prefix by `n`, and by all of them up to the target. */
  lemma {:induction false} AllPendingApplied(files: seq<MigrationFile>, recorded: seq<Record>, target: Option<string>, n: nat)
    requires n <= |Pending(files, recorded, target)|
    ensures Ordered(files) && IsPrefix(files, recorded) ==>
              var pending := Pending(files, recorded, target);
              && IsPrefix(files, recorded + RecordsOf(pending[..n]))
              && |recorded| + |pending| == Max(|recorded|, Reach(files, target))
              && (n < |pending| ==> !IsRecorded(recorded + RecordsOf(pending[..n]), pending[n].Version()))
  {
    if Ordered(files) && IsPrefix(files, recorded) {
      var pending := Pending(files, recorded, target);
      assert files[..|files|] == files;
      PendingIsStretch(files, recorded, target, |files|);
      WholeStretch(files, |recorded|, Reach(files, target), pending);
      PrefixGrows(files, recorded, pending, n);
    }
  }

  lemma WholeStretch(files: seq<MigrationFile>, p: nat, reach: nat, pending: seq<MigrationFile>)
    requires p <= |files| && reach <= |files| && pending == Stretch(files, p, reach, |files|)
    ensures p + |pending| == Max(p, reach)
    ensures pending != [] ==> p + |pending| <= |files| && pending == files[p..p + |pending|]
  {
  }

  lemma PrefixGrows(files: seq<MigrationFile>, recorded: seq<Record>, pending: seq<MigrationFile>, n: nat)
    requires Ordered(files) && IsPrefix(files, recorded) && n <= |pending|
    requires pending != [] ==> |recorded| + |pending| <= |files| && pending == files[|recorded|..|recorded| + |pending|]
    ensures IsPrefix(files, recorded + RecordsOf(pending[..n]))
    ensures n < |pending| ==> !IsRecorded(recorded + RecordsOf(pending[..n]), pending[n].Version())
  {
    var p := |recorded|;
    var grown := recorded + RecordsOf(pending[..n]);
    if pending == [] {
      assert grown == recorded;
    } else {
      assert grown == RecordsOf(files[..p + n]);
    }
    if n < |pending| {
      assert pending[n] == files[p + n];
      RecordedIffEarlier(files, grown, p + n);
    }
  }

  // ---------------------------------------------------------------------------
  // Targets and reruns
  // ---------------------------------------------------------------------------

  /** A target that is a version reaches exactly the files numbered up to it. */
  lemma TargetIsNumeric(files: seq<MigrationFile>, n: SequenceNumber)
    requires Ordered(files)
    ensures Reach(files, Some(VersionString(n))) <= |files|
    ensures forall i :: 0 <= i < |files| ==> (i < Reach(files, Some(VersionString(n))) <==> files[i].sequence <= n)
  {
    var target := Some(VersionString(n));
    ReachSplits(files, target);
    forall i | 0 <= i < |files| ensures i < Reach(files, target) <==> files[i].sequence <= n {
      VersionOrder(files[i].sequence, n);
    }
  }

  /** Without a target, or with an empty one, every file is reached. */
  lemma NoTargetReachesAll(files: seq<MigrationFile>)
    ensures Reach(files, None) == |files| && Reach(files, Some("")) == |files|
  {
  }

  /** Without a target everything is reached, so a rerun after a full success applies nothing. */
  method RerunAppliesNothing(runner: MigrationRunner, files: seq<MigrationFile>, fails: nat -> bool, again: nat -> bool)
    returns (first: Outcome, second: Outcome)
    requires Ordered(files) && IsPrefix(files, runner.recorded)
    modifies runner
    ensures first.Applied? ==> second == Applied(0) && runner.recorded == RecordsOf(files)
  {
    first := runner.RunPending(files, None, false, fails);
    ReachSplits(files, None);
    second := first;
    if first.Applied? {
      assert |files| > 0 ==> Within(files[|files| - 1], None);
      second := runner.RunPending(files, None, false, again);
      assert files[..|files|] == files;
    }
  }

  // ---------------------------------------------------------------------------
  // Any number of calls
  // ---------------------------------------------------------------------------

  /** The arguments of one call of `run_pending`. */
  datatype Call = Call(target: Option<string>, dryRun: bool, fails: nat -> bool)

  /** The first application from `i` on that fails, or `n` when there is none before it. */
  ghost function FirstFailure(fails: nat -> bool, i: nat, n: nat): nat
    decreases n - i
  {
    if i >= n || fails(i) then i else FirstFailure(fails, i + 1, n)
  }

  lemma {:induction false} FirstFailureIs(fails: nat -> bool, i: nat, m: nat, n: nat)
    requires i <= m <= n && NoFailure(fails, m) && (m < n ==> fails(m))
    ensures FirstFailure(fails, i, n) == m
    decreases m - i
  {
    if i < m {
      FirstFailureIs(fails, i + 1, m, n);
    }
  }

  /** How many files are recorded after a call that finds `done` recorded: those up to the target, or to the first failure. */
  ghost function DoneAfter(files: seq<MigrationFile>, call: Call, done: nat): nat {
    if call.dryRun then done else done + FirstFailure(call.fails, 0, Max(done, Reach(files, call.target)) - done)
  }

  ghost function DoneAfterAll(files: seq<MigrationFile>, calls: seq<Call>, done: nat): nat {
    if calls == [] then done
    else DoneAfter(files, calls[|calls| - 1], DoneAfterAll(files, calls[..|calls| - 1], done))
  }

  method RunOne(runner: MigrationRunner, files: seq<MigrationFile>, call: Call)
    requires Ordered(files) && IsPrefix(files, runner.recorded)
    modifies runner
    ensures IsPrefix(files, runner.recorded)
    ensures |runner.recorded| == DoneAfter(files, call, |old(runner.recorded)|)
  {
    ghost var done := |runner.recorded|;
    var outcome := runner.RunPending(files, call.target, call.dryRun, call.fails);
    if !call.dryRun {
      FirstFailureIs(call.fails, 0, |runner.recorded| - done, Max(done, Reach(files, call.target)) - done);
    }
  }

  /** After any calls, with any targets, failures and dry runs, the records are the prefix that the calls determine. */
  method RunAll(runner: MigrationRunner, files: seq<MigrationFile>, calls: seq<Call>)
    requires Ordered(files) && IsPrefix(files, runner.recorded)
    modifies runner
    ensures IsPrefix(files, runner.recorded)
    ensures |runner.recorded| == DoneAfterAll(files, calls, |old(runner.recorded)|)
  {
    for i := 0 to |calls|
      invariant IsPrefix(files, runner.recorded)
      invariant |runner.recorded| == DoneAfterAll(files, calls[..i], |old(runner.recorded)|)
    {
      RunOne(runner, files, calls[i]);
      assert calls[..i + 1][..i] == calls[..i];
    }
    assert calls[..|calls|] == calls;
  }

  /** Records are never lost, and a failure-free call without a target completes them whatever came before. */
  lemma {:induction false} CallsOnlyAdd(files: seq<MigrationFile>, calls: seq<Call>, done: nat)
    requires Ordered(files) && done <= |files|
    ensures done <= DoneAfterAll(files, calls, done) <= |files|
    ensures calls != [] && Completes(calls[|calls| - 1], |files|) ==> DoneAfterAll(files, calls, done) == |files|
  {
    if calls != [] {
      var front, call := calls[..|calls| - 1], calls[|calls| - 1];
      CallsOnlyAdd(files, front, done);
      var before := DoneAfterAll(files, front, done);
      ReachSplits(files, call.target);
      FirstFailureBounds(call.fails, 0, Max(before, Reach(files, call.target)) - before);
      if Completes(call, |files|) {
        assert |files| > 0 ==> Within(files[|files| - 1], None);
        FirstFailureIs(call.fails, 0, |files| - before, |files| - before);
      }
    }
  }

  ghost predicate Completes(call: Call, n: nat) {
    call.target.None? && !call.dryRun && NoFailure(call.fails, n)
  }

  lemma {:induction false} FirstFailureBounds(fails: nat -> bool, i: nat, n: nat)
    requires i <= n
    ensures i <= FirstFailure(fails, i, n) <= n
    decreases n - i
  {
    if i < n && !fails(i) {
      FirstFailureBounds(fails, i + 1, n);
    }
  }
}
