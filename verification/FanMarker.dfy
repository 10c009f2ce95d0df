/** The fan fail-safe marker as text: which channels it names, and that what is
    written is what is read back. */
module FanMarker {
  import opened Common
  import opened Text

  type Id = string

  const LEGACY: Id := "asus-wmi-curve"

  predicate IsSafeId(id: Id) {
    id == "asus-wmi:cpu" || id == "asus-wmi:gpu" || id == "asus-wmi:mid"
  }

  /** What a marker may name. */
  predicate IsEntry(id: Id) {
    IsSafeId(id) || id == LEGACY
  }

  // ---------------------------------------------------------------- writing

  predicate Before(a: string, b: string) {
    b != [] && (a == [] || a[0] < b[0] || (a[0] == b[0] && Before(a[1..], b[1..])))
  }

  function InsertId(ids: seq<Id>, id: Id): seq<Id> {
    if ids == [] || Before(id, ids[0]) then [id] + ids
    else if ids[0] == id then ids
    else [ids[0]] + InsertId(ids[1..], id)
  }

  /** `sort` followed by `dedup`. */
  function SortedIds(ids: seq<Id>): seq<Id> {
    if ids == [] then [] else InsertId(SortedIds(ids[1..]), ids[0])
  }

  function JoinLines(ids: seq<Id>): string {
    if ids == [] then "" else ids[0] + "\n" + JoinLines(ids[1..])
  }

  lemma {:induction false} InsertKeeps(ids: seq<Id>, id: Id)
    ensures forall x :: x in InsertId(ids, id) <==> x in ids || x == id
  {
    if ids != [] && !Before(id, ids[0]) && ids[0] != id { InsertKeeps(ids[1..], id); }
  }

  /** Sorting and removing duplicates keeps exactly the entries. */
  lemma {:induction false} SortedKeeps(ids: seq<Id>)
    ensures forall x :: x in SortedIds(ids) <==> x in ids
  {
    if ids != [] {
      SortedKeeps(ids[1..]);
      InsertKeeps(SortedIds(ids[1..]), ids[0]);
    }
  }

  // ---------------------------------------------------------------- reading

  /** Position of the first line break, or the length. */
  function LineEnd(s: string): (n: nat)
    ensures n <= |s| && (n < |s| ==> s[n] == '\n') && forall i :: 0 <= i < n ==> s[i] != '\n'
  {
    if s == [] || s[0] == '\n' then 0 else 1 + LineEnd(s[1..])
  }

  /** The trimmed lines that are not empty. */
  function Lines(s: string): seq<string>
    decreases |s|
  {
    var n := LineEnd(s);
    var line := Trim(s[..n]);
    (if line == [] then [] else [line]) + if n == |s| then [] else Lines(s[n + 1..])
  }

  /** The channels a marker names, unless it names something else. */
  function ParseMarker(contents: string): Option<seq<Id>> {
    var ids := Lines(contents);
    if exists id | id in ids :: !IsEntry(id) then None else Some(ids)
  }

  lemma EntriesAreLines(id: Id)
    requires IsEntry(id)
    ensures id != [] && Tight(id) && '\n' !in id
  {
  }

  lemma LineEndOf(line: string, rest: string)
    requires '\n' !in line
    ensures LineEnd(line + "\n" + rest) == |line|
  {
    var s := line + "\n" + rest;
    assert s[|line|] == '\n';
    assert forall i :: 0 <= i < |line| ==> s[i] == line[i];
  }

  /** Main result: a written marker names exactly the entries it was written with,
      in order. */
  lemma MarkerRoundTrip(ids: seq<Id>)
    requires forall id | id in ids :: IsEntry(id)
    ensures ParseMarker(JoinLines(ids)) == Some(ids)
  {
    LinesOfJoined(ids);
  }

  lemma {:induction false} LinesOfJoined(ids: seq<Id>)
    requires forall id | id in ids :: IsEntry(id)
    ensures Lines(JoinLines(ids)) == ids
  {
    if ids != [] {
      var id, rest := ids[0], JoinLines(ids[1..]);
      var s := id + "\n" + rest;
      EntriesAreLines(id);
      LineEndOf(id, rest);
      TrimLine(id);
      assert s[..|id|] == id && s[|id| + 1..] == rest;
      LinesOfJoined(ids[1..]);
    } else {
      assert Trim("") == "";
    }
  }

  /** Rows of a text, the last one without a line break. */
  function JoinRows(rows: seq<string>): string
    requires rows != []
  {
    rows[0] + if |rows| == 1 then "" else "\n" + JoinRows(rows[1..])
  }

  /** The entries of a row of a marker: itself without the blanks around it, unless
      that is empty. */
  function Entries(rows: seq<string>): seq<string> {
    if rows == [] then []
    else if Trim(rows[0]) == "" then Entries(rows[1..])
    else [Trim(rows[0])] + Entries(rows[1..])
  }

  /** Main result: any text, seen as rows between line breaks, names the trimmed rows
      that are not empty, in order; and it is refused exactly when one of these is not
      one of the four names. */
  lemma MarkerNames(rows: seq<string>)
    requires rows != [] && forall row :: row in rows ==> '\n' !in row
    ensures var fine := forall e :: e in Entries(rows) ==>
                e == "asus-wmi:cpu" || e == "asus-wmi:gpu" || e == "asus-wmi:mid" || e == "asus-wmi-curve";
      ParseMarker(JoinRows(rows)) == if fine then Some(Entries(rows)) else None
  {
    LinesOfRows(rows);
  }

  lemma {:induction false} LinesOfRows(rows: seq<string>)
    requires rows != [] && forall row :: row in rows ==> '\n' !in row
    ensures Lines(JoinRows(rows)) == Entries(rows)
  {
    var row, s := rows[0], JoinRows(rows);
    assert row in rows;
    if |rows| == 1 {
      assert s == row;
      assert forall i :: 0 <= i < |s| ==> s[i] in row;
      assert LineEnd(s) == |s| && s[..|s|] == row;
      assert Entries(rows[1..]) == [];
    } else {
      var rest := JoinRows(rows[1..]);
      assert s == row + "\n" + rest;
      LineEndOf(row, rest);
      assert s[..|row|] == row && s[|row| + 1..] == rest;
      LinesOfRows(rows[1..]);
    }
  }

  // ---------------------------------------------------------------- what a marker covers

  function Elements(ids: seq<Id>): set<Id> {
    set id | id in ids
  }

  /** The channels armed by the marker file; none when there is no readable marker. */
  function Armed(marker: Option<string>): set<Id> {
    if marker.None? || ParseMarker(marker.value).None? then {} else Elements(ParseMarker(marker.value).value)
  }

  /** There is no marker, or every line of it that is not blank names one of the three
      channels or is the legacy entry. */
  ghost predicate Legible(marker: Option<string>) {
    marker.Some? ==> forall line :: line in Lines(marker.value) ==>
      line == "asus-wmi:cpu" || line == "asus-wmi:gpu" || line == "asus-wmi:mid" || line == "asus-wmi-curve"
  }

  /** What is written arms exactly what was asked for. */
  lemma WrittenArms(ids: seq<Id>)
    requires forall id | id in ids :: IsEntry(id)
    ensures Armed(Some(JoinLines(SortedIds(ids)))) == Elements(ids)
    ensures Legible(Some(JoinLines(SortedIds(ids))))
  {
    SortedKeeps(ids);
    LinesOfJoined(SortedIds(ids));
    MarkerRoundTrip(SortedIds(ids));
  }
}
