/**
 * The admin dashboard's selectors: the notes that go into the daily summary,
 * the approved-records export grouped by day, the pending/processed split
 * and which rows offer approve/reject actions.
 */
module AdminPage {
  import opened Wrappers
  import opened Sequences
  import opened Types
  import opened Calendar
  import opened Sorting
  import opened DayGroups
  import opened Firestore

  // ---- Daily summary ----

  /** The characters String.prototype.trim removes: white space and line terminators. */
  predicate IsTrimmable(c: char) {
    || c == '\t' || c == '\n' || c == '\U{000B}' || c == '\U{000C}' || c == '\r' || c == ' '
    || c == '\U{00A0}' || c == '\U{1680}' || ('\U{2000}' <= c <= '\U{200A}')
    || c == '\U{2028}' || c == '\U{2029}' || c == '\U{202F}' || c == '\U{205F}'
    || c == '\U{3000}' || c == '\U{FEFF}'
  }

  /** note.trim() === "" */
  predicate IsBlank(note: string) {
    forall i :: 0 <= i < |note| ==> IsTrimmable(note[i])
  }

  /** The notes sent for summary: approved records of the day, blank notes dropped, record order kept. */
  function SummaryNotes(rs: seq<AttendanceRecord>, day: DayKey): seq<string> {
    if rs == [] then []
    else
      var r := rs[|rs| - 1];
      SummaryNotes(rs[..|rs| - 1], day)
        + (if r.status == Approved && DayOf(r) == day && !IsBlank(r.notes) then [r.notes] else [])
  }

  lemma {:induction false} SummaryNotesMembers(rs: seq<AttendanceRecord>, day: DayKey)
    ensures forall n :: n in SummaryNotes(rs, day) <==>
      !IsBlank(n) && exists r :: r in rs && r.status == Approved && DayOf(r) == day && r.notes == n
  {
    if rs != [] {
      var p := rs[..|rs| - 1];
      SummaryNotesMembers(p, day);
      assert rs == p + [rs[|rs| - 1]];
    }
  }

  /** Selection commutes with concatenation: notes keep the order of their records. */
  lemma {:induction false} SummaryNotesConcat(a: seq<AttendanceRecord>, b: seq<AttendanceRecord>, day: DayKey)
    ensures SummaryNotes(a + b, day) == SummaryNotes(a, day) + SummaryNotes(b, day)
  {
    if b == [] {
      assert a + b == a;
    } else {
      SummaryNotesConcat(a, b[..|b| - 1], day);
      assert (a + b)[..|a + b| - 1] == a + b[..|b| - 1];
    }
  }

  /** Records of other days, or not approved, never contribute a note. */
  lemma {:induction false} SummaryNotesIgnoresOthers(rs: seq<AttendanceRecord>, day: DayKey)
    requires forall r :: r in rs ==> r.status != Approved || DayOf(r) != day
    ensures SummaryNotes(rs, day) == []
  {
    if rs != [] {
      SummaryNotesIgnoresOthers(rs[..|rs| - 1], day);
    }
  }

  datatype SummaryOutcome = NoNotesFound | AiSummaryError | Summary(text: string)

  /**
   * handleGenerateSummary for the selected date; summarize stands for the
   * language-model call, None meaning that the call failed.
   */
  function GenerateSummary(rs: seq<AttendanceRecord>, selected: Timestamp, summarize: seq<string> -> Option<string>): (o: SummaryOutcome)
    ensures o == NoNotesFound <==> SummaryNotes(rs, DayKeyOf(selected)) == []
    ensures o.Summary? ==> summarize(SummaryNotes(rs, DayKeyOf(selected))) == Some(o.text)
    ensures o == AiSummaryError ==> summarize(SummaryNotes(rs, DayKeyOf(selected))).None?
  {
    var notes := SummaryNotes(rs, DayKeyOf(selected));
    if notes == [] then NoNotesFound
    else match summarize(notes)
      case None => AiSummaryError
      case Some(text) => Summary(text)
  }

  /** Without notes the summarizer is never consulted: every summarizer gives No Notes Found. */
  lemma NoNotesNoCall(rs: seq<AttendanceRecord>, selected: Timestamp, f: seq<string> -> Option<string>, g: seq<string> -> Option<string>)
    requires SummaryNotes(rs, DayKeyOf(selected)) == []
    ensures GenerateSummary(rs, selected, f) == NoNotesFound
    ensures GenerateSummary(rs, selected, f) == GenerateSummary(rs, selected, g)
  {
  }

  /** With notes, the outcome depends on the summarizer only through its answer on exactly those notes. */
  lemma SummaryOnlyFromSelectedNotes(rs: seq<AttendanceRecord>, selected: Timestamp, f: seq<string> -> Option<string>, g: seq<string> -> Option<string>)
    requires SummaryNotes(rs, DayKeyOf(selected)) != []
    requires f(SummaryNotes(rs, DayKeyOf(selected))) == g(SummaryNotes(rs, DayKeyOf(selected)))
    ensures GenerateSummary(rs, selected, f) != NoNotesFound
    ensures GenerateSummary(rs, selected, f) == GenerateSummary(rs, selected, g)
  {
  }

  // ---- Pending / processed split and row actions ----

  const IsPending := (r: AttendanceRecord) => r.status == Pending
  const IsProcessed := (r: AttendanceRecord) => r.status == Approved || r.status == Rejected
  const IsApproved := (r: AttendanceRecord) => r.status == Approved

  function PendingRecords(rs: seq<AttendanceRecord>): seq<AttendanceRecord> {
    Filter(rs, IsPending)
  }

  function ProcessedRecords(rs: seq<AttendanceRecord>): seq<AttendanceRecord> {
    Filter(rs, IsProcessed)
  }

  /** The Pending and History tabs split the records: each record is in exactly one, by its status. */
  lemma PendingProcessedPartition(rs: seq<AttendanceRecord>)
    ensures multiset(PendingRecords(rs)) + multiset(ProcessedRecords(rs)) == multiset(rs)
    ensures |PendingRecords(rs)| + |ProcessedRecords(rs)| == |rs|
    ensures forall r :: r in PendingRecords(rs) <==> r in rs && r.status == Pending
    ensures forall r :: r in ProcessedRecords(rs) <==> r in rs && r.status != Pending
  {
    FilterPartition(rs, IsPending, IsProcessed);
    FilterMembers(rs, IsPending);
    FilterMembers(rs, IsProcessed);
  }

  /** Replacing a pending record x by a processed y moves one record from the Pending tab to History. */
  lemma {:induction false} ReplaceMovesToHistory(before: seq<AttendanceRecord>, x: AttendanceRecord, y: AttendanceRecord, after: seq<AttendanceRecord>)
    requires x.status == Pending && (y.status == Approved || y.status == Rejected)
    ensures PendingRecords(before + [x] + after) == PendingRecords(before) + [x] + PendingRecords(after)
    ensures PendingRecords(before + [y] + after) == PendingRecords(before) + PendingRecords(after)
    ensures ProcessedRecords(before + [x] + after) == ProcessedRecords(before) + ProcessedRecords(after)
    ensures ProcessedRecords(before + [y] + after) == ProcessedRecords(before) + [y] + ProcessedRecords(after)
  {
    FilterAround(before, x, after, IsPending);
    FilterAround(before, y, after, IsPending);
    FilterAround(before, x, after, IsProcessed);
    FilterAround(before, y, after, IsProcessed);
  }

  /** Approving or rejecting a pending record moves it from the Pending tab to History, with its new status. */
  lemma ModerationMovesToHistory(rs: seq<AttendanceRecord>, k: nat, s: AttendanceStatus)
    requires UniqueRecordIds(rs) && k < |rs| && rs[k].status == Pending
    requires s == Approved || s == Rejected
    ensures |PendingRecords(SetStatus(rs, rs[k].id, s))| == |PendingRecords(rs)| - 1
    ensures |ProcessedRecords(SetStatus(rs, rs[k].id, s))| == |ProcessedRecords(rs)| + 1
    ensures multiset(PendingRecords(SetStatus(rs, rs[k].id, s))) == multiset(PendingRecords(rs)) - multiset{rs[k]}
    ensures rs[k].(status := s) in ProcessedRecords(SetStatus(rs, rs[k].id, s))
  {
    var before, x, after := rs[..k], rs[k], rs[k + 1..];
    var y := x.(status := s);
    var rs' := SetStatus(rs, x.id, s);
    assert rs == before + [x] + after;
    assert rs' == before + [y] + after;
    ReplaceMovesToHistory(before, x, y, after);
    var p, q := PendingRecords(before), PendingRecords(after);
    assert multiset(p + [x] + q) - multiset{x} == multiset(p + q);
  }

  /** What the Actions cell of an attendance table row shows. */
  datatype RowActions = ApproveOrReject | StatusBadge(status: AttendanceStatus) | NoActions

  function ActionsFor(r: AttendanceRecord, hasApprovalHandler: bool): (a: RowActions)
    ensures a == ApproveOrReject <==> r.status == Pending && hasApprovalHandler
    ensures a.StatusBadge? <==> r.status != Pending
    ensures a.StatusBadge? ==> a.status == r.status
  {
    if r.status == Pending && hasApprovalHandler then ApproveOrReject
    else if r.status != Pending then StatusBadge(r.status)
    else NoActions
  }

  /** Every row of the Pending tab (which has the handler) offers approve and reject. */
  lemma PendingTabActions(rs: seq<AttendanceRecord>)
    ensures forall r :: r in PendingRecords(rs) ==> ActionsFor(r, true) == ApproveOrReject
  {
    PendingProcessedPartition(rs);
  }

  /** No row of the History tab offers approve or reject; each shows its status. */
  lemma HistoryTabActions(rs: seq<AttendanceRecord>)
    ensures forall r :: r in ProcessedRecords(rs) ==> ActionsFor(r, false) == StatusBadge(r.status)
  {
    PendingProcessedPartition(rs);
  }

  // ---- Export of approved records ----

  datatype ExportRow = ExportRow(name: string, role: WorkerRole, shift: Shift, time: ClockTime, notes: string)

  datatype Section = Section(day: DayKey, rows: seq<ExportRow>)

  datatype ExportOutcome = NoApprovedRecords | Report(sections: seq<Section>)

  function ApprovedRecords(rs: seq<AttendanceRecord>): seq<AttendanceRecord> {
    Filter(rs, IsApproved)
  }

  function RowOf(r: AttendanceRecord): ExportRow {
    ExportRow(r.name, r.role, r.shift, ClockTimeOf(r.timestamp), r.notes)
  }

  function RowsOf(rs: seq<AttendanceRecord>): (rows: seq<ExportRow>)
    ensures |rows| == |rs|
  {
    seq(|rs|, i requires 0 <= i < |rs| => RowOf(rs[i]))
  }

  /** The reduce of the export: each record is pushed onto its day's list in a dictionary. */
  method GroupByDay(approved: seq<AttendanceRecord>) returns (groups: map<DayKey, seq<AttendanceRecord>>, keys: seq<DayKey>)
    ensures NoDuplicates(keys)
    ensures forall k :: k in groups <==> k in keys
    ensures forall k :: k in keys <==> k in DaysOf(approved)
    ensures forall k :: k in groups ==> groups[k] == OnDay(approved, k)
  {
    groups, keys := map[], [];
    var i := 0;
    while i < |approved|
      invariant 0 <= i <= |approved|
      invariant NoDuplicates(keys)
      invariant forall k :: k in groups <==> k in keys
      invariant forall k :: k in keys <==> k in DaysOf(approved[..i])
      invariant forall k :: k in groups ==> groups[k] == OnDay(approved[..i], k)
    {
      var r := approved[i];
      var k := DayOf(r);
      assert approved[..i + 1] == approved[..i] + [r];
      if k !in groups {
        OnDayNonEmpty(approved[..i], k);
        groups := groups[k := []];
        keys := keys + [k];
      }
      groups := groups[k := groups[k] + [r]];
      forall k' | k' in groups ensures groups[k'] == OnDay(approved[..i + 1], k') {
        OnDaySnoc(approved[..i], r, k');
      }
      i := i + 1;
    }
    assert approved[..i] == approved;
  }

  function DaysOfSections(sections: seq<Section>): seq<DayKey> {
    seq(|sections|, i requires 0 <= i < |sections| => sections[i].day)
  }

  /**
   * handleExportPdf without the rendering: approved records grouped by day in
   * an accumulator, days sorted newest first, one table of rows per day.
   */
  method ExportApproved(rs: seq<AttendanceRecord>) returns (out: ExportOutcome)
    ensures out == NoApprovedRecords <==> forall r :: r in rs ==> r.status != Approved
    ensures out.Report? ==>
      && StrictlyDescending(DaysOfSections(out.sections))
      && (forall d :: d in DaysOf(ApprovedRecords(rs)) <==> d in DaysOfSections(out.sections))
      && (forall i :: 0 <= i < |out.sections| ==>
            out.sections[i].rows == RowsOf(OnDay(ApprovedRecords(rs), out.sections[i].day)))
  {
    var approved := ApprovedRecords(rs);
    FilterMembers(rs, IsApproved);
    if |approved| == 0 {
      return NoApprovedRecords;
    }
    assert approved[0] in approved;

    var groups, keys := GroupByDay(approved);
    var days := SortDaysDescending(keys);
    forall t | 0 <= t < |days| ensures days[t] in groups {
      assert days[t] in days;
    }
    var sections: seq<Section> := [];
    var j := 0;
    while j < |days|
      invariant 0 <= j <= |days|
      invariant |sections| == j
      invariant forall t :: 0 <= t < j ==> sections[t] == Section(days[t], RowsOf(groups[days[t]]))
    {
      sections := sections + [Section(days[j], RowsOf(groups[days[j]]))];
      j := j + 1;
    }
    out := Report(sections);
    assert DaysOfSections(sections) == days;
  }

  /** The number of table rows in an export. */
  function RowCount(sections: seq<Section>): nat {
    if sections == [] then 0 else |sections[0].rows| + RowCount(sections[1..])
  }

  lemma {:induction false} RowCountIsSizeSum(approved: seq<AttendanceRecord>, sections: seq<Section>)
    requires forall i :: 0 <= i < |sections| ==> sections[i].rows == RowsOf(OnDay(approved, sections[i].day))
    ensures RowCount(sections) == SizeSum(approved, DaysOfSections(sections))
  {
    if sections != [] {
      assert DaysOfSections(sections)[1..] == DaysOfSections(sections[1..]);
      RowCountIsSizeSum(approved, sections[1..]);
    }
  }

  /**
   * An export as ExportApproved promises it has exactly one row per approved
   * record: with distinct days covering every approved record's day, no
   * record is dropped and none appears in two sections.
   */
  lemma ExportCoversApproved(rs: seq<AttendanceRecord>, sections: seq<Section>)
    requires StrictlyDescending(DaysOfSections(sections))
    requires forall d :: d in DaysOf(ApprovedRecords(rs)) <==> d in DaysOfSections(sections)
    requires forall i :: 0 <= i < |sections| ==> sections[i].rows == RowsOf(OnDay(ApprovedRecords(rs), sections[i].day))
    ensures RowCount(sections) == |ApprovedRecords(rs)|
  {
    var days := DaysOfSections(sections);
    RowCountIsSizeSum(ApprovedRecords(rs), sections);
    assert NoDuplicates(days);
    SizeSumCoversAll(ApprovedRecords(rs), days);
  }
}
