/**
 * The activity feed of the dashboard: which log entries it shows and in what
 * order, the rows it exports, who may edit, and the handlers that edit, select
 * and delete entries through the application store.
 */
module ActivityFeed {
  import opened Wrappers
  import opened Strings
  import opened AppContext

  // ---------------------------------------------------------------------------
  // Looking entities up by id
  // ---------------------------------------------------------------------------

  /** The position of the first entity with this id (`|refs|` when there is none). */
  function FindIndex(refs: seq<RefEntity>, id: string, from: nat): (i: nat)
    requires from <= |refs|
    ensures from <= i <= |refs|
    ensures forall j :: from <= j < i ==> refs[j].id != id
    ensures i < |refs| ==> refs[i].id == id
    decreases |refs| - from
  {
    if from == |refs| || refs[from].id == id then from else FindIndex(refs, id, from + 1)
  }

  /** `refs.find(r => r.id === id)`: the first entity with this id, if any. */
  function FindRef(refs: seq<RefEntity>, id: string): (r: Option<RefEntity>)
    ensures r.None? <==> forall j :: 0 <= j < |refs| ==> refs[j].id != id
    ensures r.Some? ==> exists i :: 0 <= i < |refs| && refs[i] == r.value && r.value.id == id
                          && forall j :: 0 <= j < i ==> refs[j].id != id
  {
    var i := FindIndex(refs, id, 0);
    if i < |refs| then Some(refs[i]) else None
  }

  // ---------------------------------------------------------------------------
  // Filtering
  // ---------------------------------------------------------------------------

  /** The feed's filter inputs; an absent date bound is the empty date field. */
  datatype Filters = Filters(search: string, participant: string, location: string,
                             dateStart: Option<int>, dateEnd: Option<int>)

  /** Every filter input is empty. */
  predicate NoFilters(f: Filters)
  {
    f.search == "" && f.participant == "" && f.location == "" && f.dateStart == None && f.dateEnd == None
  }

  /** The participant with this id exists and its name contains the term, ignoring case. */
  function NameMatches(participants: seq<Participant>, id: string, term: string): (b: bool)
    ensures b <==> FindRef(participants, id).Some?
                   && Includes(Lower(FindRef(participants, id).value.name), Lower(term))
  {
    match FindRef(participants, id)
    case Some(p) => Includes(Lower(p.name), Lower(term))
    case None => false
  }

  /** The notes, or the name of one of the entry's participants, contain the term, ignoring case. */
  function MatchesSearch(e: LogEntry, participants: seq<Participant>, term: string): (b: bool)
    ensures term == "" ==> b
    ensures Includes(Lower(e.notes), Lower(term)) ==> b
    ensures forall i :: 0 <= i < |e.participants| && NameMatches(participants, e.participants[i], term) ==> b
    ensures b ==> Includes(Lower(e.notes), Lower(term))
                  || exists i :: 0 <= i < |e.participants| && NameMatches(participants, e.participants[i], term)
  {
    Includes(Lower(e.notes), Lower(term))
    || exists i :: 0 <= i < |e.participants| && NameMatches(participants, e.participants[i], term)
  }

  /** The four conditions of the feed; an empty filter input lets everything through. */
  function Passes(f: Filters, participants: seq<Participant>, e: LogEntry): (b: bool)
    ensures f.participant == "" && f.location == "" && f.dateStart.None? && f.dateEnd.None? ==>
              (b <==> MatchesSearch(e, participants, f.search))
    ensures f.dateStart.Some? && e.timestamp < f.dateStart.value ==> !b
    ensures f.dateEnd.Some? && e.timestamp > f.dateEnd.value ==> !b
    ensures b <==> MatchesSearch(e, participants, f.search)
                   && (f.participant == "" || f.participant in e.participants)
                   && (f.location == "" || e.location == f.location)
                   && (f.dateStart.None? || e.timestamp >= f.dateStart.value)
                   && (f.dateEnd.None? || e.timestamp <= f.dateEnd.value)
  {
    MatchesSearch(e, participants, f.search)
    && (f.participant == "" || f.participant in e.participants)
    && (f.location == "" || e.location == f.location)
    && (f.dateStart.None? || e.timestamp >= f.dateStart.value)
    && (f.dateEnd.None? || e.timestamp <= f.dateEnd.value)
  }

  lemma NoFiltersPass(f: Filters, participants: seq<Participant>, e: LogEntry)
    requires NoFilters(f)
    ensures Passes(f, participants, e)
  {
  }

  /** `logEntries.filter(...)`: the passing entries, each as often as it occurs. */
  function KeepPassing(entries: seq<LogEntry>, f: Filters, participants: seq<Participant>): (r: seq<LogEntry>)
    ensures forall e :: multiset(r)[e] == if Passes(f, participants, e) then multiset(entries)[e] else 0
    ensures NoFilters(f) ==> r == entries
  {
    if entries == [] then []
    else
      assert entries == [entries[0]] + entries[1..];
      (if Passes(f, participants, entries[0]) then [entries[0]] else [])
      + KeepPassing(entries[1..], f, participants)
  }

  // ---------------------------------------------------------------------------
  // Sorting newest first
  // ---------------------------------------------------------------------------

  /** Timestamps never increase along the sequence. */
  predicate NewestFirst(s: seq<LogEntry>)
  {
    forall i, j :: 0 <= i < j < |s| ==> s[i].timestamp >= s[j].timestamp
  }

  /** The entries stamped with instant `t`, in their order. */
  function StampedAt(s: seq<LogEntry>, t: int): seq<LogEntry>
  {
    if s == [] then []
    else (if s[0].timestamp == t then [s[0]] else []) + StampedAt(s[1..], t)
  }

  /** Place `x` in front of the first entry that is not newer than it. */
  function Insert(x: LogEntry, s: seq<LogEntry>): (r: seq<LogEntry>)
    requires NewestFirst(s)
    ensures NewestFirst(r)
    ensures multiset(r) == multiset(s) + multiset{x}
  {
    if s == [] || s[0].timestamp <= x.timestamp then [x] + s
    else
      var rest := Insert(x, s[1..]);
      assert s == [s[0]] + s[1..];
      NotNewerThanHead(s, x, rest);
      NewestFirstCons(s[0], rest);
      [s[0]] + rest
  }

  /** A rearrangement of `s[1..]` and an older `x` holds nothing newer than `s[0]`. */
  lemma NotNewerThanHead(s: seq<LogEntry>, x: LogEntry, rest: seq<LogEntry>)
    requires NewestFirst(s) && s != [] && s[0].timestamp > x.timestamp
    requires multiset(rest) == multiset(s[1..]) + multiset{x}
    ensures forall k :: 0 <= k < |rest| ==> s[0].timestamp >= rest[k].timestamp
  {
    forall k | 0 <= k < |rest| ensures s[0].timestamp >= rest[k].timestamp {
      assert rest[k] in multiset(rest);
      if rest[k] != x {
        assert rest[k] in multiset(s[1..]);
        var j :| 0 <= j < |s[1..]| && s[1..][j] == rest[k];
        assert s[j + 1] == rest[k];
      }
    }
  }

  lemma NewestFirstCons(h: LogEntry, rest: seq<LogEntry>)
    requires NewestFirst(rest)
    requires forall k :: 0 <= k < |rest| ==> h.timestamp >= rest[k].timestamp
    ensures NewestFirst([h] + rest)
  {
    var s := [h] + rest;
    forall i, j | 0 <= i < j < |s| ensures s[i].timestamp >= s[j].timestamp {
      assert s[j] == rest[j - 1];
      if i > 0 {
        assert s[i] == rest[i - 1];
      }
    }
  }

  /**
   * The `sort` of `filteredEntries`: newest first, a permutation of its input,
   * and stable, as JavaScript's sort is.
   */
  function SortNewestFirst(s: seq<LogEntry>): (r: seq<LogEntry>)
    ensures NewestFirst(r)
    ensures multiset(r) == multiset(s)
  {
    if s == [] then []
    else
      assert s == [s[0]] + s[1..];
      Insert(s[0], SortNewestFirst(s[1..]))
  }

  lemma {:induction false} StampedAtAppend(a: seq<LogEntry>, b: seq<LogEntry>, t: int)
    ensures StampedAt(a + b, t) == StampedAt(a, t) + StampedAt(b, t)
  {
    if a != [] {
      var ab := a + b;
      assert ab[0] == a[0] && ab[1..] == a[1..] + b;
      StampedAtAppend(a[1..], b, t);
      var h := if a[0].timestamp == t then [a[0]] else [];
      assert StampedAt(ab, t) == h + StampedAt(a[1..] + b, t);
      assert StampedAt(a, t) == h + StampedAt(a[1..], t);
    } else {
      assert a + b == b;
    }
  }

  lemma StampedAtSingle(x: LogEntry, t: int)
    ensures StampedAt([x], t) == if x.timestamp == t then [x] else []
  {
    assert [x][1..] == [];
  }

  /** Inserting `x` puts it ahead of every entry with the same timestamp. */
  lemma {:induction false} InsertStable(x: LogEntry, s: seq<LogEntry>, t: int)
    requires NewestFirst(s)
    ensures StampedAt(Insert(x, s), t) == StampedAt([x], t) + StampedAt(s, t)
  {
    if s == [] || s[0].timestamp <= x.timestamp {
      StampedAtAppend([x], s, t);
    } else {
      var rest := Insert(x, s[1..]);
      assert Insert(x, s) == [s[0]] + rest;
      InsertStable(x, s[1..], t);
      PassOlder(x, s, rest, t);
    }
  }

  /** Moving `x` past a strictly newer head does not reorder entries stamped alike. */
  lemma PassOlder(x: LogEntry, s: seq<LogEntry>, rest: seq<LogEntry>, t: int)
    requires s != [] && s[0].timestamp > x.timestamp
    requires StampedAt(rest, t) == StampedAt([x], t) + StampedAt(s[1..], t)
    ensures StampedAt([s[0]] + rest, t) == StampedAt([x], t) + StampedAt(s, t)
  {
    StampedAtAppend([s[0]], rest, t);
    HeadThenTail(s, t);
    var tail := StampedAt(s[1..], t);
    if x.timestamp == t {
      StampedAtSingle(s[0], t);
      assert StampedAt([s[0]], t) == [];
      assert StampedAt([s[0]] + rest, t) == StampedAt(rest, t);
      assert StampedAt(s, t) == tail;
    } else {
      StampedAtSingle(x, t);
      assert StampedAt([x], t) == [];
      assert StampedAt(rest, t) == tail;
    }
  }

  /** Entries with equal timestamps keep their relative order. */
  lemma {:induction false} SortStable(s: seq<LogEntry>, t: int)
    ensures StampedAt(SortNewestFirst(s), t) == StampedAt(s, t)
  {
    if s != [] {
      var sorted := SortNewestFirst(s[1..]);
      assert SortNewestFirst(s) == Insert(s[0], sorted);
      SortStable(s[1..], t);
      InsertStable(s[0], sorted, t);
      HeadThenTail(s, t);
    }
  }

  lemma HeadThenTail(s: seq<LogEntry>, t: int)
    requires s != []
    ensures StampedAt(s, t) == StampedAt([s[0]], t) + StampedAt(s[1..], t)
  {
    StampedAtAppend([s[0]], s[1..], t);
    assert s == [s[0]] + s[1..];
  }

  /** `filteredEntries`: the passing entries of the store, newest first. */
  function FilteredEntries(st: AppState, f: Filters): (r: seq<LogEntry>)
    ensures NewestFirst(r)
    ensures forall e :: multiset(r)[e] == if Passes(f, st.participants, e) then multiset(st.logEntries)[e] else 0
  {
    SortNewestFirst(KeepPassing(st.logEntries, f, st.participants))
  }

  /** Every entry shown is a stored entry that passes the filters, and each of those is shown. */
  lemma FilteredMembers(st: AppState, f: Filters, e: LogEntry)
    ensures e in FilteredEntries(st, f) <==> e in st.logEntries && Passes(f, st.participants, e)
  {
    assert e in FilteredEntries(st, f) <==> multiset(FilteredEntries(st, f))[e] > 0;
    assert e in st.logEntries <==> multiset(st.logEntries)[e] > 0;
  }

  /** With every filter input empty the feed shows all stored entries. */
  lemma NoFiltersShowAll(st: AppState, f: Filters)
    requires NoFilters(f)
    ensures multiset(FilteredEntries(st, f)) == multiset(st.logEntries)
  {
    assert KeepPassing(st.logEntries, f, st.participants) == st.logEntries;
  }

  /** Shown entries with equal timestamps appear in their stored order. */
  lemma FilteredStable(st: AppState, f: Filters, t: int)
    ensures StampedAt(FilteredEntries(st, f), t) == StampedAt(KeepPassing(st.logEntries, f, st.participants), t)
    ensures StampedAt(FilteredEntries(st, f), t) == KeepPassing(StampedAt(st.logEntries, t), f, st.participants)
  {
    KeepPassingStampedAt(st.logEntries, f, st.participants, t);
    SortStable(KeepPassing(st.logEntries, f, st.participants), t);
  }

  /** Filtering keeps the order: the passing entries stamped `t` are those stamped `t` that pass. */
  lemma {:induction false} KeepPassingStampedAt(entries: seq<LogEntry>, f: Filters,
                                                participants: seq<Participant>, t: int)
    ensures StampedAt(KeepPassing(entries, f, participants), t)
         == KeepPassing(StampedAt(entries, t), f, participants)
  {
    if entries != [] {
      var e := entries[0];
      var h := if Passes(f, participants, e) then [e] else [];
      var g := if e.timestamp == t then [e] else [];
      var rest := StampedAt(entries[1..], t);
      KeepPassingStampedAt(entries[1..], f, participants, t);
      StampedAtAppend(h, KeepPassing(entries[1..], f, participants), t);
      StampedAtSingle(e, t);
      assert StampedAt(entries, t) == g + rest;
      if g != [] {
        assert (g + rest)[0] == e && (g + rest)[1..] == rest;
      } else {
        assert g + rest == rest;
      }
      if h == [] {
        assert StampedAt(h, t) == [];
      }
    }
  }

  // ---------------------------------------------------------------------------
  // Export rows
  // ---------------------------------------------------------------------------

  /** One row of the exported table, without the locale-formatted timestamp. */
  datatype ExportRow = ExportRow(timecode: string, participants: string, location: string,
                                 action: string, tags: string, notes: string)

  /** JavaScript's `s || fallback` on a string. */
  function OrElse(s: string, fallback: string): (r: string)
    ensures s != "" ==> r == s
    ensures s == "" ==> r == fallback
  {
    if s == "" then fallback else s
  }

  /** `find(...)?.name` as `join` renders it: a missing entity gives the empty string. */
  function NameOrEmpty(refs: seq<RefEntity>, id: string): (r: string)
    ensures FindRef(refs, id).None? ==> r == ""
    ensures FindRef(refs, id).Some? ==> r == FindRef(refs, id).value.name
  {
    match FindRef(refs, id)
    case Some(x) => x.name
    case None => ""
  }

  /** `find(...)?.name || 'Unknown'`. */
  function NameOrUnknown(refs: seq<RefEntity>, id: string): (r: string)
    ensures r != ""
    ensures FindRef(refs, id).None? ==> r == "Unknown"
    ensures FindRef(refs, id).Some? && FindRef(refs, id).value.name != "" ==> r == FindRef(refs, id).value.name
  {
    OrElse(NameOrEmpty(refs, id), "Unknown")
  }

  /** `ids.map(id => find(...)?.name).join(', ') || 'None'`. */
  function NamesCell(refs: seq<RefEntity>, ids: seq<string>): (r: string)
    ensures r != ""
    ensures ids == [] ==> r == "None"
    ensures |ids| == 1 && NameOrEmpty(refs, ids[0]) != "" ==> r == NameOrEmpty(refs, ids[0])
  {
    OrElse(Join(seq(|ids|, i requires 0 <= i < |ids| => NameOrEmpty(refs, ids[i])), ", "), "None")
  }

  /** Two ids that resolve to nothing leave only the separator, not `'None'`. */
  lemma TwoDanglingNames(refs: seq<RefEntity>, a: string, b: string)
    requires FindRef(refs, a).None? && FindRef(refs, b).None?
    ensures NamesCell(refs, [a, b]) == ", "
  {
    var names := seq(2, i requires 0 <= i < 2 => NameOrEmpty(refs, [a, b][i]));
    assert names == ["", ""];
    assert Join(names, ", ") == "" + ", " + Join(names[1..], ", ");
  }

  /** `notes.substring(0, 50) + (notes.length > 50 ? '...' : '')`. */
  function NotesCell(notes: string): (r: string)
    ensures |notes| <= 50 ==> r == notes
    ensures |notes| > 50 ==> r == notes[..50] + "..."
    ensures |r| <= 53
  {
    if |notes| <= 50 then notes else notes[..50] + "..."
  }

  /** One exported row: every cell falls back to a placeholder rather than stay empty. */
  function ExportRowOf(st: AppState, e: LogEntry): (row: ExportRow)
    ensures e.timecode != "" ==> row.timecode == e.timecode
    ensures e.timecode == "" ==> row.timecode == "N/A"
    ensures row.participants == NamesCell(st.participants, e.participants)
    ensures row.location == NameOrUnknown(st.locations, e.location)
    ensures row.action == NameOrUnknown(st.actionCategories, e.actionCategory)
    ensures row.tags == NamesCell(st.tags, e.tags)
    ensures row.notes == NotesCell(e.notes)
    ensures row.participants != "" && row.location != "" && row.action != "" && row.tags != ""
  {
    ExportRow(OrElse(e.timecode, "N/A"),
              NamesCell(st.participants, e.participants),
              NameOrUnknown(st.locations, e.location),
              NameOrUnknown(st.actionCategories, e.actionCategory),
              NamesCell(st.tags, e.tags),
              NotesCell(e.notes))
  }

  /** `tableData`: one row per shown entry, in the order shown. */
  function ExportRows(st: AppState, shown: seq<LogEntry>): (rows: seq<ExportRow>)
    ensures |rows| == |shown|
    ensures forall i :: 0 <= i < |rows| ==> rows[i] == ExportRowOf(st, shown[i])
  {
    seq(|shown|, i requires 0 <= i < |shown| => ExportRowOf(st, shown[i]))
  }

  /** The exported table is the rows of exactly the entries the feed shows, in the order shown. */
  lemma ExportShown(st: AppState, f: Filters)
    ensures var shown := FilteredEntries(st, f);
            var rows := ExportRows(st, shown);
            |rows| == |shown|
            && forall i :: 0 <= i < |rows| ==>
                 rows[i] == ExportRowOf(st, shown[i]) && shown[i] in st.logEntries
                 && Passes(f, st.participants, shown[i])
  {
    var shown := FilteredEntries(st, f);
    forall i | 0 <= i < |shown| ensures shown[i] in st.logEntries && Passes(f, st.participants, shown[i]) {
      FilteredMembers(st, f, shown[i]);
    }
  }

  /** No exported cell is empty, and the notes cell never exceeds 53 characters. */
  lemma ExportRowCells(st: AppState, e: LogEntry)
    ensures var row := ExportRowOf(st, e);
            row.timecode != "" && row.participants != "" && row.location != ""
            && row.action != "" && row.tags != "" && |row.notes| <= 53
    ensures |e.notes| <= 50 ==> ExportRowOf(st, e).notes == e.notes
    ensures ExportRowOf(st, e).notes[..if |e.notes| <= 50 then |e.notes| else 50] ==
              e.notes[..if |e.notes| <= 50 then |e.notes| else 50]
  {
  }

  // ---------------------------------------------------------------------------
  // Roles
  // ---------------------------------------------------------------------------

  /** `isAdmin`. */
  function IsAdmin(st: AppState): (b: bool)
    ensures b <==> st.currentUser.Some? && st.currentUser.value.role == "admin"
  {
    match st.currentUser
    case Some(u) => u.role == "admin"
    case None => false
  }

  /** `canEdit`: administrators and loggers, and nobody when no one is signed in. */
  function CanEdit(st: AppState): (b: bool)
    ensures b <==> st.currentUser.Some? && st.currentUser.value.role in {"admin", "logger"}
    ensures IsAdmin(st) ==> b
  {
    IsAdmin(st) || match st.currentUser
                   case Some(u) => u.role == "logger"
                   case None => false
  }

  // ---------------------------------------------------------------------------
  // Selection
  // ---------------------------------------------------------------------------

  predicate NoDup(s: seq<string>)
  {
    forall i, j :: 0 <= i < j < |s| ==> s[i] != s[j]
  }

  /** `s.filter(x => x !== id)`. */
  function Without(s: seq<string>, id: string): (r: seq<string>)
    ensures forall x :: x in r <==> x in s && x != id
    ensures id !in s ==> r == s
    ensures NoDup(s) ==> NoDup(r)
  {
    if s == [] then []
    else
      var rest := Without(s[1..], id);
      assert s == [s[0]] + s[1..];
      if s[0] == id then rest
      else
        assert NoDup(s) ==> NoDup(s[1..]) && s[0] !in s[1..] && s[0] !in rest;
        NoDupCons(s[0], rest);
        [s[0]] + rest
  }

  lemma NoDupCons(a: string, rest: seq<string>)
    ensures NoDup(rest) && a !in rest ==> NoDup([a] + rest)
  {
    if NoDup(rest) && a !in rest {
      var s := [a] + rest;
      forall i, j | 0 <= i < j < |s| ensures s[i] != s[j] {
        if i == 0 {
          assert s[j] == rest[j - 1];
        } else {
          assert s[i] == rest[i - 1] && s[j] == rest[j - 1];
        }
      }
    }
  }

  /** The selection after `handleSelectEntry(id)`: remove `id` if present, else append it. */
  function Toggled(sel: seq<string>, id: string): (r: seq<string>)
    ensures id in r <==> id !in sel
    ensures forall x :: x != id ==> (x in r <==> x in sel)
    ensures id !in sel ==> r == sel + [id]
    ensures NoDup(sel) ==> NoDup(r)
    ensures NoDup(sel) ==> forall k :: 0 <= k < |sel| && sel[k] == id ==> r == sel[..k] + sel[k + 1..]
  {
    if id in sel then
      WithoutEvery(sel, id);
      Without(sel, id)
    else sel + [id]
  }

  /** In a duplicate-free list, `filter` drops the one occurrence and keeps the others in order. */
  lemma {:induction false} WithoutAt(s: seq<string>, id: string, k: nat)
    requires NoDup(s) && k < |s| && s[k] == id
    ensures Without(s, id) == s[..k] + s[k + 1..]
  {
    NoDupTail(s);
    var t := s[1..];
    WithoutStep(s, id);
    if k == 0 {
      assert s[..0] + s[1..] == t;
    } else {
      assert t[k - 1] == id;
      WithoutAt(t, id, k - 1);
      ConsSlices(s, k);
    }
  }

  lemma WithoutStep(s: seq<string>, id: string)
    requires s != []
    ensures Without(s, id) == if s[0] == id then Without(s[1..], id) else [s[0]] + Without(s[1..], id)
  {
  }

  lemma NoDupTail(s: seq<string>)
    requires NoDup(s) && s != []
    ensures NoDup(s[1..]) && s[0] !in s[1..]
  {
    var t := s[1..];
    forall j | 0 <= j < |t| ensures t[j] != s[0] {
      assert t[j] == s[j + 1];
    }
    forall i, j | 0 <= i < j < |t| ensures t[i] != t[j] {
      assert t[i] == s[i + 1] && t[j] == s[j + 1];
    }
  }

  lemma ConsSlices(s: seq<string>, k: nat)
    requires 0 < k < |s|
    ensures [s[0]] + (s[1..][..k - 1] + s[1..][k..]) == s[..k] + s[k + 1..]
  {
    assert s[1..][..k - 1] == s[1..k] && s[1..][k..] == s[k + 1..];
    assert s[..k] == [s[0]] + s[1..k];
  }

  lemma WithoutEvery(s: seq<string>, id: string)
    ensures NoDup(s) ==> forall k :: 0 <= k < |s| && s[k] == id ==> Without(s, id) == s[..k] + s[k + 1..]
  {
    if NoDup(s) {
      forall k | 0 <= k < |s| && s[k] == id ensures Without(s, id) == s[..k] + s[k + 1..] {
        WithoutAt(s, id, k);
      }
    }
  }

  /** Selecting an unselected entry and then deselecting it restores the selection exactly. */
  lemma {:induction false} WithoutAppended(sel: seq<string>, id: string)
    requires id !in sel
    ensures Without(sel + [id], id) == sel
  {
    if sel != [] {
      assert (sel + [id])[1..] == sel[1..] + [id];
      WithoutAppended(sel[1..], id);
      assert sel == [sel[0]] + sel[1..];
    }
  }

  lemma ToggleTwice(sel: seq<string>, id: string)
    requires id !in sel
    ensures Toggled(Toggled(sel, id), id) == sel
  {
    WithoutAppended(sel, id);
  }

  /** The ids of some entries, in their order. */
  function Ids(entries: seq<LogEntry>): (r: seq<string>)
    ensures |r| == |entries|
    ensures forall i :: 0 <= i < |r| ==> r[i] == entries[i].id
  {
    seq(|entries|, i requires 0 <= i < |entries| => entries[i].id)
  }

  // ---------------------------------------------------------------------------
  // Deleting the selection
  // ---------------------------------------------------------------------------

  /** What `handleDeleteSelected` asks the store to do. */
  datatype DeletePlan = NoDeletion | BatchDelete | EachDelete(ids: seq<string>)

  /** The decision as the handler writes it: batch delete when the counts are equal. */
  function PlanAsWritten(sel: seq<string>, entries: seq<LogEntry>): (p: DeletePlan)
    ensures sel == [] <==> p.NoDeletion?
    ensures p.BatchDelete? <==> sel != [] && |sel| == |entries|
    ensures p.EachDelete? ==> p.ids == sel
  {
    if |sel| == 0 then NoDeletion
    else if |sel| == |entries| then BatchDelete
    else EachDelete(sel)
  }

  /** Every stored entry is selected. */
  predicate AllSelected(sel: seq<string>, entries: seq<LogEntry>)
  {
    forall i :: 0 <= i < |entries| ==> entries[i].id in sel
  }

  /** The decision as intended: batch delete only when every stored entry is selected. */
  function Plan(sel: seq<string>, entries: seq<LogEntry>): (p: DeletePlan)
    ensures sel == [] <==> p.NoDeletion?
    ensures p.BatchDelete? <==> sel != [] && AllSelected(sel, entries)
    ensures p.EachDelete? ==> p.ids == sel
  {
    if |sel| == 0 then NoDeletion
    else if AllSelected(sel, entries) then BatchDelete
    else EachDelete(sel)
  }

  /** The stored entries a plan removes when every call succeeds. */
  predicate Removes(p: DeletePlan, e: LogEntry)
  {
    match p
    case NoDeletion => false
    case BatchDelete => true
    case EachDelete(ids) => e.id in ids
  }

  /** The intended decision removes exactly the selected stored entries. */
  lemma PlanRemovesSelection(sel: seq<string>, entries: seq<LogEntry>, i: nat)
    requires i < |entries|
    ensures Removes(Plan(sel, entries), entries[i]) <==> entries[i].id in sel
  {
  }

  /**
   * The decision as written can remove an entry nobody selected: one of two
   * selected entries has been deleted elsewhere and another entry has arrived.
   */
  lemma AsWrittenRemovesUnselected()
    ensures var a := LogEntry("a", 1, "", [], "", "", [], "", "");
            var b := LogEntry("b", 2, "", [], "", "", [], "", "");
            PlanAsWritten(["a", "c"], [a, b]) == BatchDelete
            && Removes(PlanAsWritten(["a", "c"], [a, b]), b) && b.id !in ["a", "c"]
  {
  }

  function ElementSet(s: seq<string>): set<string>
  {
    set x | x in s
  }

  lemma {:induction false} NoDupCard(s: seq<string>)
    requires NoDup(s)
    ensures |ElementSet(s)| == |s|
  {
    if s != [] {
      assert s == [s[0]] + s[1..];
      assert NoDup(s[1..]);
      NoDupCard(s[1..]);
      assert ElementSet(s) == {s[0]} + ElementSet(s[1..]);
      assert s[0] !in ElementSet(s[1..]);
    }
  }

  lemma SubsetSameCard(a: set<string>, b: set<string>)
    requires a <= b && |a| == |b|
    ensures a == b
  {
    assert a - b == {};
    assert a * b == a;
    assert a + b == b;
    assert |b - a| == 0;
    assert b - a == {};
  }

  /**
   * When the selection holds no duplicates and only ids of stored entries, and
   * stored ids are distinct, the count comparison decides as intended.
   */
  lemma AsWrittenAgrees(sel: seq<string>, entries: seq<LogEntry>)
    requires NoDup(sel) && NoDup(Ids(entries))
    requires forall x :: x in sel ==> x in Ids(entries)
    ensures PlanAsWritten(sel, entries) == Plan(sel, entries)
  {
    var ids := Ids(entries);
    NoDupCard(sel);
    NoDupCard(ids);
    assert ElementSet(sel) <= ElementSet(ids);
    if |sel| == |entries| {
      SubsetSameCard(ElementSet(sel), ElementSet(ids));
      assert forall i :: 0 <= i < |entries| ==> entries[i].id in ElementSet(ids) by {
        forall i | 0 <= i < |entries| ensures entries[i].id in ElementSet(ids) {
          assert ids[i] == entries[i].id;
        }
      }
    }
    if |sel| == |entries| {
      assert AllSelected(sel, entries);
    }
    if AllSelected(sel, entries) {
      assert ElementSet(ids) <= ElementSet(sel) by {
        forall x | x in ElementSet(ids) ensures x in ElementSet(sel) {
          var i :| 0 <= i < |ids| && ids[i] == x;
          assert entries[i].id in sel;
        }
      }
      assert ElementSet(ids) == ElementSet(sel);
      assert |sel| == |entries|;
    }
  }

  /** How many calls a plan makes when none fails. */
  function CallCount(p: DeletePlan): nat
  {
    match p
    case NoDeletion => 0
    case BatchDelete => 1
    case EachDelete(ids) => |ids|
  }

  /** Some call of the plan rejects, `rejectAt` being the position of the first call that would. */
  predicate PlanFails(p: DeletePlan, rejectAt: Option<nat>)
  {
    rejectAt.Some? && rejectAt.value < CallCount(p)
  }

  function DeleteRequests(ids: seq<string>): (r: seq<Request>)
    ensures |r| == |ids|
    ensures forall i :: 0 <= i < |r| ==> r[i] == DeleteRequest(ids[i])
  {
    seq(|ids|, i requires 0 <= i < |ids| => DeleteRequest(ids[i]))
  }

  /** The calls a plan issues: they stop after the first one that rejects. */
  function PlanRequests(p: DeletePlan, rejectAt: Option<nat>): (r: seq<Request>)
    ensures |r| == if PlanFails(p, rejectAt) then rejectAt.value + 1 else CallCount(p)
    ensures p.BatchDelete? ==> r == [DeleteAllRequest]
    ensures p.EachDelete? ==> forall i :: 0 <= i < |r| ==> r[i] == DeleteRequest(p.ids[i])
  {
    match p
    case NoDeletion => []
    case BatchDelete => [DeleteAllRequest]
    case EachDelete(ids) =>
      DeleteRequests(ids[..if PlanFails(p, rejectAt) then rejectAt.value + 1 else |ids|])
  }

  /** Every single-entry deletion the intended plan asks for names a selected id. */
  lemma RequestsTargetSelection(sel: seq<string>, entries: seq<LogEntry>, rejectAt: Option<nat>)
    ensures forall r :: r in PlanRequests(Plan(sel, entries), rejectAt) ==>
              (r.DeleteRequest? && r.deleteId in sel) || (r.DeleteAllRequest? && AllSelected(sel, entries))
  {
    var p := Plan(sel, entries);
    var rs := PlanRequests(p, rejectAt);
    forall r | r in rs
      ensures (r.DeleteRequest? && r.deleteId in sel) || (r.DeleteAllRequest? && AllSelected(sel, entries))
    {
      var i :| 0 <= i < |rs| && rs[i] == r;
      if p.EachDelete? {
        assert r == DeleteRequest(sel[i]);
      }
    }
  }

  /**
   * The store calls of a delete plan, issued one after another and stopping
   * after the first that rejects (`rejectAt`); `failed` says whether one did.
   */
  method IssuePlan(p: DeletePlan, app: AppStore, rejectAt: Option<nat>) returns (failed: bool)
    modifies app
    ensures failed == PlanFails(p, rejectAt)
    ensures app.requests == old(app.requests) + PlanRequests(p, rejectAt)
    ensures app.state == old(app.state) && app.storage == old(app.storage)
  {
    failed := false;
    match p
    case NoDeletion =>
    case BatchDelete =>
      // The store reports how many documents it removed; the number passed here
      // is a stand-in (the count of stored entries) and is not used afterwards.
      var _ := app.DeleteAllLogEntries(|app.state.logEntries|);
      failed := rejectAt == Some(0);
    case EachDelete(ids) =>
      var i := 0;
      while i < |ids| && !failed
        invariant 0 <= i <= |ids|
        invariant failed <==> rejectAt.Some? && rejectAt.value < i
        invariant failed ==> i == rejectAt.value + 1
        invariant app.requests == old(app.requests) + DeleteRequests(ids[..i])
        invariant app.state == old(app.state) && app.storage == old(app.storage)
        modifies app
      {
        app.DeleteLogEntry(ids[i]);
        assert ids[..i + 1] == ids[..i] + [ids[i]];
        assert DeleteRequests(ids[..i + 1]) == DeleteRequests(ids[..i]) + [DeleteRequest(ids[i])];
        if rejectAt == Some(i) {
          failed := true;
        }
        i := i + 1;
      }
      assert !failed ==> i == |ids| && ids[..i] == ids;
  }

  // ---------------------------------------------------------------------------
  // The component
  // ---------------------------------------------------------------------------

  const EmptyNotesError: string := "As notas não podem estar vazias"
  const UnknownSaveError: string := "Erro desconhecido ao salvar"

  /** All of the component's own state at one moment. */
  datatype FeedState = FeedState(
    searchTerm: string, filterParticipant: string, filterLocation: string,
    filterDateStart: Option<int>, filterDateEnd: Option<int>,
    editingEntry: Option<string>, editNotes: string, saving: bool,
    deleting: Option<string>, error: Option<string>,
    selectedEntries: seq<string>, selectAll: bool)

  /** The component's state hooks and the handlers that update them. */
  class Feed {
    var searchTerm: string
    var filterParticipant: string
    var filterLocation: string
    var filterDateStart: Option<int>
    var filterDateEnd: Option<int>
    var editingEntry: Option<string>
    var editNotes: string
    var saving: bool
    var deleting: Option<string>
    var error: Option<string>
    var selectedEntries: seq<string>
    var selectAll: bool

    function View(): FeedState
      reads this
    {
      FeedState(searchTerm, filterParticipant, filterLocation, filterDateStart, filterDateEnd,
                editingEntry, editNotes, saving, deleting, error, selectedEntries, selectAll)
    }

    function CurrentFilters(): Filters
      reads this
    {
      Filters(searchTerm, filterParticipant, filterLocation, filterDateStart, filterDateEnd)
    }

    constructor()
      ensures View() == FeedState("", "", "", None, None, None, "", false, None, None, [], false)
      ensures NoFilters(CurrentFilters())
    {
      searchTerm, filterParticipant, filterLocation := "", "", "";
      filterDateStart, filterDateEnd := None, None;
      editingEntry, editNotes, saving := None, "", false;
      deleting, error := None, None;
      selectedEntries, selectAll := [], false;
    }

    /** The search box's `onChange`. */
    method SetSearchTerm(term: string)
      modifies this
      ensures View() == old(View()).(searchTerm := term)
    {
      searchTerm := term;
    }

    /** The participant selector's `onChange`. */
    method SetFilterParticipant(id: string)
      modifies this
      ensures View() == old(View()).(filterParticipant := id)
    {
      filterParticipant := id;
    }

    /** The notes editor's `onChange`. */
    method SetEditNotes(notes: string)
      modifies this
      ensures View() == old(View()).(editNotes := notes)
    {
      editNotes := notes;
    }

    /** `handleEditEntry`: start editing one entry from its current notes. */
    method EditEntry(entryId: string, currentNotes: string)
      modifies this
      ensures View() == old(View()).(editingEntry := Some(entryId), editNotes := currentNotes, error := None)
    {
      editingEntry := Some(entryId);
      editNotes := currentNotes;
      error := None;
    }

    /**
     * `handleSaveEdit` up to its `await`: ignored while a save is in flight;
     * blank notes are refused with an error; otherwise exactly one update with
     * the trimmed notes is handed to the store.
     */
    method SaveEdit(entryId: string, app: AppStore)
      modifies this, app
      ensures old(saving) ==> View() == old(View()) && app.requests == old(app.requests)
      ensures !old(saving) && Trim(old(editNotes)) == "" ==>
                View() == old(View()).(error := Some(EmptyNotesError)) && app.requests == old(app.requests)
      ensures !old(saving) && Trim(old(editNotes)) != "" ==>
                View() == old(View()).(saving := true, error := None)
                && app.requests == old(app.requests) + [UpdateRequest(entryId, NotesPatch(Trim(old(editNotes))))]
      ensures app.state == old(app.state) && app.storage == old(app.storage)
    {
      if saving {
        return;
      }
      var trimmed := Trim(editNotes);
      if trimmed == "" {
        error := Some(EmptyNotesError);
        return;
      }
      saving := true;
      error := None;
      app.UpdateLogEntry(entryId, NotesPatch(trimmed));
    }

    /**
     * The rest of `handleSaveEdit` once the update settles: success leaves edit
     * mode, a rejection keeps it and shows the message (or a generic one);
     * either way the save is over.
     */
    method SaveEditSettled(rejection: Option<string>)
      modifies this
      ensures rejection.None? ==>
                View() == old(View()).(editingEntry := None, editNotes := "", saving := false)
      ensures rejection.Some? ==>
                View() == old(View()).(error := Some(OrElse(rejection.value, UnknownSaveError)), saving := false)
      ensures !saving
    {
      if rejection.None? {
        editingEntry := None;
        editNotes := "";
      } else {
        error := Some(OrElse(rejection.value, UnknownSaveError));
      }
      saving := false;
    }

    /** `handleCancelEdit`. */
    method CancelEdit()
      modifies this
      ensures View() == old(View()).(editingEntry := None, editNotes := "", error := None)
    {
      editingEntry := None;
      editNotes := "";
      error := None;
    }

    /** `handleDeleteEntry` up to its `await`: once confirmed, one deletion is handed to the store. */
    method DeleteEntry(entryId: string, confirmed: bool, app: AppStore)
      modifies this, app
      ensures !confirmed ==> View() == old(View()) && app.requests == old(app.requests)
      ensures confirmed ==> View() == old(View()).(deleting := Some(entryId))
                            && app.requests == old(app.requests) + [DeleteRequest(entryId)]
      ensures app.state == old(app.state) && app.storage == old(app.storage)
    {
      if !confirmed {
        return;
      }
      deleting := Some(entryId);
      app.DeleteLogEntry(entryId);
    }

    /** The `finally` of `handleDeleteEntry`, whatever the outcome. */
    method DeleteEntrySettled()
      modifies this
      ensures View() == old(View()).(deleting := None)
    {
      deleting := None;
    }

    /** `handleSelectEntry`. */
    method SelectEntry(entryId: string)
      modifies this
      ensures View() == old(View()).(selectedEntries := Toggled(old(selectedEntries), entryId))
    {
      selectedEntries := Toggled(selectedEntries, entryId);
    }

    /** `handleSelectAll`: clear the selection, or select exactly the shown entries in order. */
    method SelectAll(st: AppState)
      modifies this
      ensures old(selectAll) ==> View() == old(View()).(selectedEntries := [], selectAll := false)
      ensures !old(selectAll) ==>
                View() == old(View()).(selectedEntries := Ids(FilteredEntries(st, old(CurrentFilters()))),
                                       selectAll := true)
    {
      if selectAll {
        selectedEntries := [];
      } else {
        selectedEntries := Ids(FilteredEntries(st, CurrentFilters()));
      }
      selectAll := !selectAll;
    }

    /**
     * `handleDeleteSelected`, with the intended batch decision. `rejectAt` is
     * the position of the first store call that rejects, if any; the calls
     * stop there and the selection is kept, otherwise it is cleared.
     */
    method DeleteSelected(app: AppStore, confirmed: bool, rejectAt: Option<nat>)
      modifies this, app
      ensures old(selectedEntries) == [] || !confirmed ==>
                View() == old(View()) && app.requests == old(app.requests)
      ensures old(selectedEntries) != [] && confirmed ==>
                var p := Plan(old(selectedEntries), old(app.state.logEntries));
                app.requests == old(app.requests) + PlanRequests(p, rejectAt)
                && View() == if PlanFails(p, rejectAt) then old(View())
                             else old(View()).(selectedEntries := [], selectAll := false)
      ensures app.state == old(app.state) && app.storage == old(app.storage)
    {
      var sel := selectedEntries;
      if |sel| == 0 || !confirmed {
        return;
      }
      var failed := IssuePlan(Plan(sel, app.state.logEntries), app, rejectAt);
      if !failed {
        selectedEntries := [];
        selectAll := false;
      }
    }

    /**
     * `handleDeleteSelected` as the source writes it: the batch call is chosen
     * by comparing the selection's length with the number of stored entries.
     */
    method DeleteSelectedAsWritten(app: AppStore, confirmed: bool, rejectAt: Option<nat>)
      modifies this, app
      ensures old(selectedEntries) == [] || !confirmed ==>
                View() == old(View()) && app.requests == old(app.requests)
      ensures old(selectedEntries) != [] && confirmed ==>
                var p := PlanAsWritten(old(selectedEntries), old(app.state.logEntries));
                app.requests == old(app.requests) + PlanRequests(p, rejectAt)
                && View() == if PlanFails(p, rejectAt) then old(View())
                             else old(View()).(selectedEntries := [], selectAll := false)
      ensures app.state == old(app.state) && app.storage == old(app.storage)
    {
      var sel := selectedEntries;
      if |sel| == 0 || !confirmed {
        return;
      }
      var failed := IssuePlan(PlanAsWritten(sel, app.state.logEntries), app, rejectAt);
      if !failed {
        selectedEntries := [];
        selectAll := false;
      }
    }
  }
}
