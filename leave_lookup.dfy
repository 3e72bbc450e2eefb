/**
 * The leave-balance lookup of the portal's single-page app (App.tsx): the
 * published spreadsheet export is parsed line by line into records keyed by
 * the header row, and the first record matching the employee's name and a
 * credential gives the remaining-days count shown on the page.
 */
module LeaveLookup {
  import opened Optional
  import opened JsString

  /** Column headers the lookup reads. */
  const NameKey: string := "이름"
  const BirthKey: string := "생년월일"
  const PasswordKey: string := "비밀번호"
  const RemainingKey: string := "현재 잔여 연차"

  /**
   * One parsed row: every header is a key; its value is the trimmed cell, or
   * `None` (JavaScript `undefined`) when the row has fewer cells than headers.
   */
  type Record = map<string, Option<string>>

  /** `values[i]?.trim()`. */
  function Cell(values: seq<string>, i: nat): (r: Option<string>)
    ensures r.Some? <==> i < |values|
    ensures r.Some? && r.value != [] ==> !IsWhitespace(r.value[0]) && !IsWhitespace(r.value[|r.value| - 1])
  {
    if i < |values| then Some(Trim(values[i])) else None
  }

  /**
   * The record built by `headers.forEach((header, i) => obj[header] = values[i]?.trim())`:
   * the assignments in header order, so a repeated header keeps its last column.
   */
  function RecordOf(headers: seq<string>, values: seq<string>): (r: Record)
    ensures forall h :: h in headers ==> h in r
    decreases |headers|
  {
    if headers == [] then map[]
    else
      var n := |headers| - 1;
      assert headers == headers[..n] + [headers[n]];
      RecordOf(headers[..n], values)[headers[n] := Cell(values, n)]
  }

  /** The forEach loop that fills `obj`, one header at a time. */
  method BuildRecord(headers: seq<string>, values: seq<string>) returns (obj: Record)
    ensures obj == RecordOf(headers, values)
  {
    obj := map[];
    var i := 0;
    while i < |headers|
      invariant 0 <= i <= |headers|
      invariant obj == RecordOf(headers[..i], values)
    {
      assert headers[..i + 1][..i] == headers[..i];
      obj := obj[headers[i] := Cell(values, i)];
      i := i + 1;
    }
    assert headers[..|headers|] == headers;
  }

  /** `lines[0].split(',').map(h => h.trim())`. */
  function TrimAll(cells: seq<string>): (r: seq<string>)
    ensures |r| == |cells| && forall i :: 0 <= i < |cells| ==> r[i] == Trim(cells[i])
  {
    seq(|cells|, i requires 0 <= i < |cells| => Trim(cells[i]))
  }

  /** The header list of a sheet export. */
  function Headers(csvText: string): (r: seq<string>)
    ensures |r| == Occurrences(Split(csvText, '\n')[0], ',') + 1
    ensures forall i :: 0 <= i < |r| ==> r[i] == [] || (!IsWhitespace(r[i][0]) && !IsWhitespace(r[i][|r[i]| - 1]))
  {
    SplitCount(Split(csvText, '\n')[0], ',');
    TrimAll(Split(Split(csvText, '\n')[0], ','))
  }

  /** What `parseCSV` returns: one record per line after the first. */
  function CsvRecords(csvText: string): (r: seq<Record>)
    ensures |r| == Occurrences(csvText, '\n')
  {
    SplitCount(csvText, '\n');
    var lines := Split(csvText, '\n');
    seq(|lines| - 1, k requires 0 <= k < |lines| - 1 => RecordOf(Headers(csvText), Split(lines[k + 1], ',')))
  }

  /** `parseCSV`: split into lines, read the header line, build a record for every later line. */
  method ParseCsv(csvText: string) returns (rows: seq<Record>)
    ensures rows == CsvRecords(csvText)
  {
    var lines := Split(csvText, '\n');
    var headers := TrimAll(Split(lines[0], ','));
    ghost var spec := CsvRecords(csvText);
    assert headers == Headers(csvText);
    rows := [];
    var k := 1;
    while k < |lines|
      invariant 1 <= k <= |lines|
      invariant rows == spec[..k - 1]
    {
      var obj := BuildRecord(headers, Split(lines[k], ','));
      assert spec[..k] == spec[..k - 1] + [obj];
      rows := rows + [obj];
      k := k + 1;
    }
    assert spec[..|spec|] == spec;
  }

  /** Every record has exactly the header names as keys; surplus cells are dropped. */
  lemma {:induction false} RecordOfKeys(headers: seq<string>, values: seq<string>)
    ensures RecordOf(headers, values).Keys == set h | h in headers
    decreases |headers|
  {
    if headers != [] {
      var n := |headers| - 1;
      RecordOfKeys(headers[..n], values);
      assert headers == headers[..n] + [headers[n]];
    }
  }

  /** A header's value comes from its last column: a later duplicate header wins. */
  lemma {:induction false} RecordOfLastWins(headers: seq<string>, values: seq<string>, j: nat)
    requires j < |headers|
    requires forall k :: j < k < |headers| ==> headers[k] != headers[j]
    ensures headers[j] in RecordOf(headers, values)
    ensures RecordOf(headers, values)[headers[j]] == Cell(values, j)
    decreases |headers|
  {
    var n := |headers| - 1;
    if j < n {
      RecordOfLastWins(headers[..n], values, j);
    }
  }

  /** Every stored value is the trimmed cell of a column carrying that header, or undefined. */
  lemma {:induction false} RecordOfCells(headers: seq<string>, values: seq<string>)
    ensures forall key :: key in RecordOf(headers, values) ==>
      exists j :: 0 <= j < |headers| && headers[j] == key && RecordOf(headers, values)[key] == Cell(values, j)
    decreases |headers|
  {
    if headers != [] {
      var n := |headers| - 1;
      RecordOfCells(headers[..n], values);
      forall key | key in RecordOf(headers, values)
        ensures exists j :: 0 <= j < |headers| && headers[j] == key && RecordOf(headers, values)[key] == Cell(values, j)
      {
        if key == headers[n] {
          assert RecordOf(headers, values)[key] == Cell(values, n);
        } else {
          var j :| 0 <= j < n && headers[..n][j] == key && RecordOf(headers[..n], values)[key] == Cell(values, j);
          assert headers[j] == key;
        }
      }
    }
  }

  /** Cell values are stored trimmed. */
  lemma RecordValuesTrimmed(headers: seq<string>, values: seq<string>, key: string)
    requires key in RecordOf(headers, values) && RecordOf(headers, values)[key].Some?
    ensures Trim(RecordOf(headers, values)[key].value) == RecordOf(headers, values)[key].value
  {
    RecordOfCells(headers, values);
    var j :| 0 <= j < |headers| && headers[j] == key && RecordOf(headers, values)[key] == Cell(values, j);
    TrimIdempotent(values[j]);
  }

  /** Record `k` comes from line `k + 1`, split on every comma and keyed by the header line. */
  lemma CsvRecordLine(csvText: string, k: nat)
    requires k < |CsvRecords(csvText)|
    ensures CsvRecords(csvText)[k].Keys == set h | h in Headers(csvText)
    ensures Join(Split(csvText, '\n'), '\n') == csvText
    ensures CsvRecords(csvText)[k] == RecordOf(Headers(csvText), Split(Split(csvText, '\n')[k + 1], ','))
  {
    RecordOfKeys(Headers(csvText), Split(Split(csvText, '\n')[k + 1], ','));
    JoinSplit(csvText, '\n');
  }

  /** The record of an empty line: every cell is empty or undefined. */
  lemma {:induction false} EmptyLineRecord(headers: seq<string>)
    ensures forall key :: key in RecordOf(headers, [""]) ==>
      RecordOf(headers, [""])[key] == None || RecordOf(headers, [""])[key] == Some("")
    decreases |headers|
  {
    if headers != [] {
      EmptyLineRecord(headers[..|headers| - 1]);
      assert Trim("") == "";
    }
  }

  /** A text ending in a newline gets a last record whose cells are all empty or undefined. */
  lemma TrailingNewlineRecord(csvText: string)
    requires csvText != [] && csvText[|csvText| - 1] == '\n'
    ensures |CsvRecords(csvText)| >= 1
    ensures var last := CsvRecords(csvText)[|CsvRecords(csvText)| - 1];
      forall key :: key in last ==> last[key] == None || last[key] == Some("")
  {
    var lines := Split(csvText, '\n');
    SplitLastEmpty(csvText, '\n');
    var emptyLine := lines[|lines| - 1];
    assert emptyLine == "";
    assert Split(emptyLine, ',') == [""];
    EmptyLineRecord(Headers(csvText));
  }

  /** `row[key]`, undefined when the key is absent or its cell was missing. */
  function Get(row: Record, key: string): Option<string> {
    if key in row then row[key] else None
  }

  /** JavaScript truthiness of a possibly undefined cell. */
  predicate IsTruthy(cell: Option<string>) {
    cell.Some? && cell.value != ""
  }

  /**
   * The `find` predicate: the name is equal, and the credential equals the
   * birth-date cell or the password cell, or the birth-date cell is empty or missing.
   */
  predicate Matches(row: Record, searchName: string, credential: string)
    ensures Matches(row, searchName, credential) ==> Get(row, NameKey) == Some(searchName)
    ensures Matches(row, searchName, credential) && IsTruthy(Get(row, BirthKey)) && Get(row, BirthKey) != Some(credential) ==>
      Get(row, PasswordKey) == Some(credential)
  {
    && Get(row, NameKey) == Some(searchName)
    && (|| Get(row, BirthKey) == Some(credential)
        || Get(row, PasswordKey) == Some(credential)
        || !IsTruthy(Get(row, BirthKey)))
  }

  /** `data.find(...)`, as the index of the first matching record. */
  function FindFirst(rows: seq<Record>, searchName: string, credential: string): (r: Option<nat>)
    ensures r.Some? ==> r.value < |rows| && Matches(rows[r.value], searchName, credential)
    ensures r.Some? ==> forall j :: 0 <= j < r.value ==> !Matches(rows[j], searchName, credential)
    ensures r.None? ==> forall j :: 0 <= j < |rows| ==> !Matches(rows[j], searchName, credential)
    decreases |rows|
  {
    if rows == [] then None
    else if Matches(rows[0], searchName, credential) then Some(0)
    else
      match FindFirst(rows[1..], searchName, credential)
      case Some(i) => Some(i + 1)
      case None => None
  }

  /** What the page shows on a match. */
  datatype LeaveBalance = LeaveBalance(name: string, count: string)

  /** `found['현재 잔여 연차'] || '0'`. */
  function RemainingDays(row: Record): (r: string)
    ensures r != ""
    ensures IsTruthy(Get(row, RemainingKey)) ==> Get(row, RemainingKey) == Some(r)
  {
    if IsTruthy(Get(row, RemainingKey)) then Get(row, RemainingKey).value else "0"
  }

  /** The search result for a parsed sheet: the first match's name and count, or nothing. */
  function Lookup(rows: seq<Record>, searchName: string, credential: string): (r: Option<LeaveBalance>)
    ensures r.Some? ==> r.value.name == searchName && r.value.count != ""
    ensures r.None? <==> forall j :: 0 <= j < |rows| ==> !Matches(rows[j], searchName, credential)
  {
    match FindFirst(rows, searchName, credential)
    case Some(i) => Some(LeaveBalance(Get(rows[i], NameKey).value, RemainingDays(rows[i])))
    case None => None
  }

  /** The lookup reports the first matching record, with the searched name and a '0' default count. */
  lemma LookupFirstMatch(rows: seq<Record>, searchName: string, credential: string, i: nat)
    requires i < |rows| && Matches(rows[i], searchName, credential)
    requires forall j :: 0 <= j < i ==> !Matches(rows[j], searchName, credential)
    ensures Lookup(rows, searchName, credential) ==
      Some(LeaveBalance(searchName, if IsTruthy(Get(rows[i], RemainingKey)) then Get(rows[i], RemainingKey).value else "0"))
  {
  }

  /** The lookup finds nothing exactly when no record matches. */
  lemma LookupNone(rows: seq<Record>, searchName: string, credential: string)
    ensures Lookup(rows, searchName, credential).None? <==>
      forall j :: 0 <= j < |rows| ==> !Matches(rows[j], searchName, credential)
  {
    var r := FindFirst(rows, searchName, credential);
    if r.Some? {
      assert Matches(rows[r.value], searchName, credential);
    }
  }

  /** A record whose birth-date cell is empty or missing matches its name with any credential at all. */
  lemma EmptyBirthMatchesAnyCredential(row: Record, searchName: string, credential: string)
    requires Get(row, NameKey) == Some(searchName)
    requires !IsTruthy(Get(row, BirthKey))
    ensures Matches(row, searchName, credential)
  {
  }

  /** In a sheet without a birth-date column, the name alone decides a match. */
  lemma NoBirthColumnNameDecides(headers: seq<string>, values: seq<string>, searchName: string, credential: string)
    requires BirthKey !in headers
    ensures Matches(RecordOf(headers, values), searchName, credential) <==>
      Get(RecordOf(headers, values), NameKey) == Some(searchName)
  {
    RecordOfKeys(headers, values);
  }

  /** An empty line, such as the one after a trailing newline, never matches a non-empty name. */
  lemma EmptyLineNeverMatches(headers: seq<string>, searchName: string, credential: string)
    requires searchName != ""
    ensures !Matches(RecordOf(headers, [""]), searchName, credential)
  {
    EmptyLineRecord(headers);
  }

  /** The header line of a sheet with name, birth-date and remaining-days columns. */
  const ThreeColumnHeader: string := "이름,생년월일,현재 잔여 연차"

  /** Three comma-free cells joined by commas split back into those cells. */
  lemma SplitThree(a: string, b: string, c: string)
    requires ',' !in a && ',' !in b && ',' !in c
    ensures Split(a + "," + b + "," + c, ',') == [a, b, c]
  {
    var parts := [a, b, c];
    assert parts[1..] == [b, c] && parts[1..][1..] == [c];
    assert Join([c], ',') == c;
    assert Join([b, c], ',') == b + [','] + c;
    assert a + "," + b + "," + c == Join(parts, ',');
    SplitJoin(parts, ',');
  }

  /** Trimming three cells that are already trimmed. */
  lemma TrimAllThree(a: string, b: string, c: string)
    requires Trim(a) == a && Trim(b) == b && Trim(c) == c
    ensures TrimAll([a, b, c]) == [a, b, c]
  {
    var cells := [a, b, c];
    var t := TrimAll(cells);
    assert |t| == 3;
    assert t[0] == Trim(cells[0]) == a;
    assert t[1] == Trim(cells[1]) == b;
    assert t[2] == Trim(cells[2]) == c;
  }

  /** A sheet of a header line and one row line parses into one record of that row. */
  lemma TwoLineSheet(header: string, row: string)
    requires '\n' !in header && '\n' !in row
    ensures Headers(header + "\n" + row) == TrimAll(Split(header, ','))
    ensures CsvRecords(header + "\n" + row) == [RecordOf(TrimAll(Split(header, ',')), Split(row, ','))]
  {
    var text := header + "\n" + row;
    var lines := [header, row];
    assert lines[1..] == [row];
    assert Join(lines[1..], '\n') == row;
    assert text == Join(lines, '\n');
    SplitJoin(lines, '\n');
    var split := Split(text, '\n');
    assert split == lines;
    var hs := Headers(text);
    assert hs == TrimAll(Split(header, ','));
    var recs := CsvRecords(text);
    assert |recs| == 1;
    assert recs[0] == RecordOf(hs, Split(row, ','));
  }

  /** The three-column header line yields the three header names. */
  lemma ThreeColumnHeaders()
    ensures TrimAll(Split(ThreeColumnHeader, ',')) == [NameKey, BirthKey, RemainingKey]
  {
    assert ThreeColumnHeader == NameKey + "," + BirthKey + "," + RemainingKey;
    SplitThree(NameKey, BirthKey, RemainingKey);
    KeysTrimmed();
    TrimAllThree(NameKey, BirthKey, RemainingKey);
  }

  /** The header names carry no surrounding whitespace. */
  lemma KeysTrimmed()
    ensures Trim(NameKey) == NameKey && Trim(BirthKey) == BirthKey && Trim(RemainingKey) == RemainingKey
  {
    KeyTrimmed(NameKey);
    KeyTrimmed(BirthKey);
    KeyTrimmed(RemainingKey);
  }

  lemma KeyTrimmed(key: string)
    requires key == NameKey || key == BirthKey || key == RemainingKey
    ensures Trim(key) == key
  {
    assert key[0] in "이생현" && key[|key| - 1] in "름일차";
    TrimUnchanged(key);
  }

  /** A one-row sheet under the three-column header parses into one record of that row's cells. */
  lemma ThreeColumnSheet(n: string, b: string, d: string)
    requires ',' !in n && ',' !in b && ',' !in d
    requires '\n' !in n && '\n' !in b && '\n' !in d
    ensures CsvRecords(ThreeColumnHeader + "\n" + n + "," + b + "," + d) ==
      [RecordOf([NameKey, BirthKey, RemainingKey], [n, b, d])]
  {
    var row := n + "," + b + "," + d;
    assert '\n' !in row;
    assert '\n' !in ThreeColumnHeader;
    assert ThreeColumnHeader + "\n" + n + "," + b + "," + d == ThreeColumnHeader + "\n" + row;
    TwoLineSheet(ThreeColumnHeader, row);
    ThreeColumnHeaders();
    SplitThree(n, b, d);
  }

  /** The three column headers are distinct, and the sheet has no password column. */
  lemma ThreeColumnKeys()
    ensures NameKey != BirthKey && NameKey != RemainingKey && BirthKey != RemainingKey
    ensures PasswordKey !in [NameKey, BirthKey, RemainingKey]
  {
    assert |NameKey| == 2 && |BirthKey| == 4 && |PasswordKey| == 4 && |RemainingKey| == 8;
    assert PasswordKey[0] != BirthKey[0];
  }

  /** A record over three distinct headers stores each trimmed cell under its header. */
  lemma RecordOfThree(h1: string, h2: string, h3: string, v1: string, v2: string, v3: string)
    requires h1 != h2 && h1 != h3 && h2 != h3
    requires Trim(v1) == v1 && Trim(v2) == v2 && Trim(v3) == v3
    ensures var row := RecordOf([h1, h2, h3], [v1, v2, v3]);
      Get(row, h1) == Some(v1) && Get(row, h2) == Some(v2) && Get(row, h3) == Some(v3)
    ensures RecordOf([h1, h2, h3], [v1, v2, v3]).Keys == {h1, h2, h3}
  {
    var hs := [h1, h2, h3];
    var vs := [v1, v2, v3];
    RecordOfLastWins(hs, vs, 0);
    RecordOfLastWins(hs, vs, 1);
    RecordOfLastWins(hs, vs, 2);
    RecordOfKeys(hs, vs);
    assert (set h | h in hs) == {h1, h2, h3};
  }

  /** A three-column record stores each trimmed cell under its header and has no password cell. */
  lemma ThreeColumnRecord(n: string, b: string, d: string)
    requires Trim(n) == n && Trim(b) == b && Trim(d) == d
    ensures var row := RecordOf([NameKey, BirthKey, RemainingKey], [n, b, d]);
      && Get(row, NameKey) == Some(n)
      && Get(row, BirthKey) == Some(b)
      && Get(row, RemainingKey) == Some(d)
      && Get(row, PasswordKey) == None
  {
    ThreeColumnKeys();
    RecordOfThree(NameKey, BirthKey, RemainingKey, n, b, d);
  }

  /** In a three-column record the name with its birth date finds the remaining days, or '0'. */
  lemma ThreeColumnFound(n: string, b: string, d: string)
    requires Trim(n) == n && Trim(b) == b && Trim(d) == d
    ensures Lookup([RecordOf([NameKey, BirthKey, RemainingKey], [n, b, d])], n, b) ==
      Some(LeaveBalance(n, if d != "" then d else "0"))
  {
    var row := RecordOf([NameKey, BirthKey, RemainingKey], [n, b, d]);
    ThreeColumnRecord(n, b, d);
    LookupFirstMatch([row], n, b, 0);
  }

  /** A single record whose birth-date cell is set and which has no password cell rejects any other credential. */
  lemma WrongCredentialRejected(row: Record, searchName: string, birth: string, other: string)
    requires Get(row, BirthKey) == Some(birth) && Get(row, PasswordKey) == None
    requires birth != "" && other != birth
    ensures Lookup([row], searchName, other) == None
  {
    assert !Matches(row, searchName, other);
    assert [row][0] == row;
    LookupNone([row], searchName, other);
  }

  /** With a non-empty birth date in a three-column record, any other credential finds nothing. */
  lemma ThreeColumnRejects(n: string, b: string, d: string, other: string)
    requires Trim(n) == n && Trim(b) == b && Trim(d) == d
    requires b != "" && other != b
    ensures Lookup([RecordOf([NameKey, BirthKey, RemainingKey], [n, b, d])], n, other) == None
  {
    ThreeColumnRecord(n, b, d);
    WrongCredentialRejected(RecordOf([NameKey, BirthKey, RemainingKey], [n, b, d]), n, b, other);
  }

  /** The user-visible alerts of the search panel. */
  datatype Alert = MissingInput | NoMatch | FetchError

  /** What the sheet request gave: the body text, or a failure of the fetch or of reading the body. */
  datatype SheetFetch = Fetched(csvText: string) | FetchFailed

  /** The search panel's state: result, whether a search has completed, whether one is in flight. */
  class LeaveSearchPanel {
    var searchResult: Option<LeaveBalance>
    var hasSearched: bool
    var isSearching: bool

    constructor ()
      ensures searchResult == None && !hasSearched && !isSearching
    {
      searchResult := None;
      hasSearched := false;
      isSearching := false;
    }

    /** Input validation and `setIsSearching(true)` before the sheet request. */
    method StartSearch(searchName: string, searchBirth: string) returns (started: bool, alert: Option<Alert>)
      modifies this
      ensures started <==> searchName != "" && searchBirth != ""
      ensures !started ==> alert == Some(MissingInput) && unchanged(this)
      ensures started ==> alert == None && isSearching
      ensures searchResult == old(searchResult) && hasSearched == old(hasSearched)
    {
      if searchName == "" || searchBirth == "" {
        return false, Some(MissingInput);
      }
      isSearching := true;
      return true, None;
    }

    /** The `try`/`catch`/`finally` after the sheet request settles. */
    method FinishSearch(searchName: string, searchBirth: string, sheet: SheetFetch) returns (alert: Option<Alert>)
      modifies this
      ensures !isSearching
      ensures sheet.FetchFailed? ==>
        alert == Some(FetchError) && searchResult == old(searchResult) && hasSearched == old(hasSearched)
      ensures sheet.Fetched? ==>
        && searchResult == Lookup(CsvRecords(sheet.csvText), searchName, searchBirth)
        && hasSearched
        && alert == (if searchResult.None? then Some(NoMatch) else None)
    {
      match sheet {
        case FetchFailed =>
          alert := Some(FetchError);
        case Fetched(csvText) =>
          var data := ParseCsv(csvText);
          var found := FindFirst(data, searchName, searchBirth);
          if found.Some? {
            var row := data[found.value];
            searchResult := Some(LeaveBalance(Get(row, NameKey).value, RemainingDays(row)));
            alert := None;
          } else {
            searchResult := None;
            alert := Some(NoMatch);
          }
          hasSearched := true;
      }
      isSearching := false;
    }

    /** `handleLeaveSearch`, with the sheet request's outcome as an input. */
    method HandleLeaveSearch(searchName: string, searchBirth: string, sheet: SheetFetch) returns (alert: Option<Alert>)
      modifies this
      ensures (searchName == "" || searchBirth == "") ==> alert == Some(MissingInput) && unchanged(this)
      ensures searchName != "" && searchBirth != "" ==> !isSearching
      ensures searchName != "" && searchBirth != "" && sheet.FetchFailed? ==>
        alert == Some(FetchError) && searchResult == old(searchResult) && hasSearched == old(hasSearched)
      ensures searchName != "" && searchBirth != "" && sheet.Fetched? ==>
        && searchResult == Lookup(CsvRecords(sheet.csvText), searchName, searchBirth)
        && hasSearched
        && alert == (if searchResult.None? then Some(NoMatch) else None)
    {
      var started;
      started, alert := StartSearch(searchName, searchBirth);
      if started {
        alert := FinishSearch(searchName, searchBirth, sheet);
      }
    }
  }
}
