/** The ledger table: one row a migration version, and everything the commands
    derive from the rows. Sources: internal/ledger/ledger.go and
    internal/engine/postgresengine/ledger.go. */
module Ledger {
  import opened Ordered

  datatype Status = Applied | Reverted | Applying

  /** `hash` is "" for a row recorded before hashes existed; `source` is "" or ADOPTED. */
  datatype Row = Row(status: Status, hash: string, source: string)

  type Rows = map<nat, Row>

  const ADOPTED := "adopted"

  /** Versions are stored in a signed 64-bit column. */
  const MAX_VERSION: nat := 0x7FFF_FFFF_FFFF_FFFF

  /** The three upserts, as values, so that a command can be described by what it writes. */
  datatype Write =
    | SetStatus(version: nat, status: Status)
    | SetStatusWithHash(version: nat, status: Status, hash: string)
    | SetStatusAdopted(version: nat, hash: string)

  /** The effect of one upsert: a bare status write keeps the row's hash and source. */
  function Put(rows: Rows, w: Write): Rows {
    match w
    case SetStatus(v, s) => rows[v := if v in rows then rows[v].(status := s) else Row(s, "", "")]
    case SetStatusWithHash(v, s, h) => rows[v := Row(s, h, "")]
    case SetStatusAdopted(v, h) => rows[v := Row(Applied, h, ADOPTED)]
  }

  function PutAll(rows: Rows, ws: seq<Write>): Rows
    decreases |ws|
  {
    if ws == [] then rows else PutAll(Put(rows, ws[0]), ws[1..])
  }

  lemma {:induction false} PutAllAppends(rows: Rows, ws: seq<Write>, last: Write)
    ensures PutAll(rows, ws + [last]) == Put(PutAll(rows, ws), last)
    decreases |ws|
  {
    if ws == [] {
      assert ws + [last] == [last];
      assert PutAll(Put(rows, last), []) == Put(rows, last);
    } else {
      assert (ws + [last])[1..] == ws[1..] + [last];
      PutAllAppends(Put(rows, ws[0]), ws[1..], last);
    }
  }

  function StatusWritten(w: Write): Status {
    if w.SetStatusAdopted? then Applied else w.status
  }

  function WithStatus(rows: Rows, s: Status): set<nat> {
    set v | v in rows && rows[v].status == s
  }

  function AppliedSet(rows: Rows): set<nat> {
    WithStatus(rows, Applied)
  }

  function ApplyingSet(rows: Rows): set<nat> {
    WithStatus(rows, Applying)
  }

  /** Every version currently applied, ascending. */
  function AppliedVersions(rows: Rows): seq<nat> {
    Sorted(AppliedSet(rows))
  }

  /** What the rows say about the database: the highest applied version if there is
      one, and the lowest version that started and never finished if there is one. */
  datatype State = State(version: nat, hasVersion: bool, applying: nat, dirty: bool)

  function QueryState(rows: Rows): (st: State)
    ensures st.hasVersion <==> AppliedSet(rows) != {}
    ensures st.hasVersion ==> st.version in AppliedSet(rows) && forall v :: v in AppliedSet(rows) ==> v <= st.version
    ensures st.dirty <==> ApplyingSet(rows) != {}
    ensures st.dirty ==> st.applying in ApplyingSet(rows) && forall v :: v in ApplyingSet(rows) ==> st.applying <= v
  {
    var applied := AppliedSet(rows);
    var applying := ApplyingSet(rows);
    State(if applied == {} then 0 else Max(applied), applied != {},
          if applying == {} then 0 else Min(applying), applying != {})
  }

  /** One listed row. */
  datatype Entry = Entry(version: nat, row: Row)

  ghost predicate Lists(rows: Rows, entries: seq<Entry>) {
    && |entries| == |rows|
    && (forall i, j :: 0 <= i < j < |entries| ==> entries[i].version < entries[j].version)
    && (forall e: Entry :: e in entries <==> e.version in rows && rows[e.version] == e.row)
  }

  function EntriesOf(rows: Rows, vs: seq<nat>): (entries: seq<Entry>)
    requires forall v :: v in vs ==> v in rows
    ensures |entries| == |vs| && forall i :: 0 <= i < |vs| ==> entries[i] == Entry(vs[i], rows[vs[i]])
  {
    seq(|vs|, i requires 0 <= i < |vs| => assert vs[i] in vs; Entry(vs[i], rows[vs[i]]))
  }

  lemma EntriesList(rows: Rows, vs: seq<nat>)
    requires Ascending(vs) && |vs| == |rows| && forall v :: v in vs <==> v in rows
    ensures Lists(rows, EntriesOf(rows, vs))
  {
    var entries := EntriesOf(rows, vs);
    forall e: Entry
      ensures e in entries <==> e.version in rows && rows[e.version] == e.row
    {
      if e in entries {
        var i :| 0 <= i < |entries| && entries[i] == e;
        assert vs[i] in vs;
      }
      if e.version in rows && rows[e.version] == e.row {
        assert e.version in vs;
        var i :| 0 <= i < |vs| && vs[i] == e.version;
        assert entries[i] == e;
      }
    }
  }

  /** `SELECT … ORDER BY version ASC`. */
  function List(rows: Rows): (entries: seq<Entry>)
    ensures Lists(rows, entries)
  {
    var vs := Sorted(rows.Keys);
    SortedLength(rows.Keys);
    assert |rows.Keys| == |rows|;
    EntriesList(rows, vs);
    EntriesOf(rows, vs)
  }

  ghost function AppliedAmong(entries: seq<Entry>, n: nat): set<nat>
    requires n <= |entries|
  {
    set k | 0 <= k < n && entries[k].row.status == Applied :: entries[k].version
  }

  /** Passing one more listed row appends its version when it is applied. */
  lemma AppliedStep(entries: seq<Entry>, n: nat)
    requires n < |entries|
    requires forall i, j :: 0 <= i < j < |entries| ==> entries[i].version < entries[j].version
    ensures Sorted(AppliedAmong(entries, n + 1)) ==
            if entries[n].row.status == Applied then Sorted(AppliedAmong(entries, n)) + [entries[n].version]
            else Sorted(AppliedAmong(entries, n))
  {
    var s, s' := AppliedAmong(entries, n), AppliedAmong(entries, n + 1);
    if entries[n].row.status == Applied {
      assert s' == s + {entries[n].version};
      SortedPush(s, entries[n].version);
    } else {
      assert s' == s;
    }
  }

  /** The loop that keeps the applied rows of the listing. */
  method CollectApplied(rows: Rows) returns (versions: seq<nat>)
    ensures versions == AppliedVersions(rows)
  {
    var entries := List(rows);
    AllListed(rows);
    versions := KeepApplied(entries);
  }

  method KeepApplied(entries: seq<Entry>) returns (versions: seq<nat>)
    requires forall i, j :: 0 <= i < j < |entries| ==> entries[i].version < entries[j].version
    ensures versions == Sorted(AppliedAmong(entries, |entries|))
  {
    versions := [];
    for i := 0 to |entries|
      invariant versions == Sorted(AppliedAmong(entries, i))
    {
      AppliedStep(entries, i);
      if entries[i].row.status == Applied {
        versions := versions + [entries[i].version];
      }
    }
  }

  lemma AllListed(rows: Rows)
    ensures AppliedAmong(List(rows), |rows|) == AppliedSet(rows)
  {
    var entries := List(rows);
    forall v | v in AppliedSet(rows)
      ensures v in AppliedAmong(entries, |entries|)
    {
      assert Entry(v, rows[v]) in entries;
    }
    forall k | 0 <= k < |entries| && entries[k].row.status == Applied
      ensures entries[k].version in AppliedSet(rows)
    {
      assert entries[k] in entries;
    }
  }

  /** Every write that does not mark a version as applying keeps the rest of the
      applying set and clears the version it writes. */
  lemma PutApplying(rows: Rows, w: Write)
    ensures StatusWritten(w) != Applying ==> ApplyingSet(Put(rows, w)) == ApplyingSet(rows) - {w.version}
    ensures StatusWritten(w) == Applying ==> ApplyingSet(Put(rows, w)) == ApplyingSet(rows) + {w.version}
    ensures StatusWritten(w) != Applied ==> AppliedSet(Put(rows, w)) == AppliedSet(rows) - {w.version}
    ensures StatusWritten(w) == Applied ==> AppliedSet(Put(rows, w)) == AppliedSet(rows) + {w.version}
  {
    assert forall v :: v in rows && v != w.version ==> v in Put(rows, w) && Put(rows, w)[v] == rows[v];
    assert w.version in Put(rows, w) && Put(rows, w)[w.version].status == StatusWritten(w);
  }
}
