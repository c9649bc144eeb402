/** The owner's ride history: the CSV export, and the table listing entries newest
    first with their date, fare and coloured status cells. */
module RideHistory {
  import opened FleetModel
  import Text
  import Sorting

  /** The header line of the export, with its line break. */
  const Header: string := "Date,Passenger,Driver,Fare,Status\n"

  const HeaderLine: string := "Date,Passenger,Driver,Fare,Status"

  /** `${r.fare}`: a number in decimal, or the literal 'N/A'. */
  function FareText(f: Fare): string
  {
    match f
    case Amount(n) => Text.IntToString(n)
    case NotApplicable => "N/A"
  }

  /** One CSV line: date, passenger, driver, fare and status joined by commas, unquoted. */
  function CsvRow(e: Entry): string
  {
    CsvLine(e.Date(), e.Passenger(), e.Driver(), FareText(e.Fare()), StatusText(e.Status()))
  }

  /** The template `${date},${passenger},${driver},${fare},${status}`. */
  function CsvLine(date: string, passenger: string, driver: string, fare: string, status: string): string
  {
    date + "," + passenger + "," + driver + "," + fare + "," + status
  }

  function CsvRows(entries: seq<Entry>): (rows: seq<string>)
    ensures |rows| == |entries|
    ensures forall i :: 0 <= i < |entries| ==> rows[i] == CsvRow(entries[i])
  {
    seq(|entries|, i requires 0 <= i < |entries| => CsvRow(entries[i]))
  }

  /** The exported file: the header, then the rows joined by line breaks. */
  function Csv(entries: seq<Entry>): string
  {
    Header + Text.Join(CsvRows(entries), '\n')
  }

  /** The five cells of a line, as a reader splitting on commas expects them. */
  function Cells(e: Entry): seq<string>
  {
    [e.Date(), e.Passenger(), e.Driver(), FareText(e.Fare()), StatusText(e.Status())]
  }

  /** The free-text fields hold neither a comma nor a line break. */
  predicate Plain(e: Entry)
  {
    && ',' !in e.Date() && '\n' !in e.Date()
    && ',' !in e.Passenger() && '\n' !in e.Passenger()
    && ',' !in e.Driver() && '\n' !in e.Driver()
  }

  lemma FareTextIsPlain(f: Fare)
    ensures ',' !in FareText(f) && '\n' !in FareText(f)
  {
    if f.Amount? {
      var n := f.amount;
      var digits := Text.NatToString(if n < 0 then -n else n);
      assert forall i :: 0 <= i < |digits| ==> Text.IsDigit(digits[i]);
      if n < 0 {
        assert FareText(f) == "-" + digits;
      }
    }
  }

  lemma StatusTextIsPlain(st: Status)
    ensures ',' !in StatusText(st) && '\n' !in StatusText(st)
  {
  }

  /** A line is its cells joined by commas. */
  lemma CsvRowIsJoin(e: Entry)
    ensures CsvRow(e) == Text.Join(Cells(e), ',')
  {
    var fare, status := FareText(e.Fare()), StatusText(e.Status());
    CsvLineNested(e.Date(), e.Passenger(), e.Driver(), fare, status);
    Text.JoinCons(fare, [status], ',');
    Text.JoinCons(e.Driver(), [fare, status], ',');
    Text.JoinCons(e.Passenger(), [e.Driver(), fare, status], ',');
    Text.JoinCons(e.Date(), [e.Passenger(), e.Driver(), fare, status], ',');
  }

  /** A line, grouped from the right. */
  lemma CsvLineNested(date: string, passenger: string, driver: string, fare: string, status: string)
    ensures CsvLine(date, passenger, driver, fare, status) ==
      date + [','] + (passenger + [','] + (driver + [','] + (fare + [','] + status)))
  {
  }

  /** Splitting a line of plain fields on commas gives back its five cells. */
  lemma CsvRowRoundTrip(e: Entry)
    requires Plain(e)
    ensures Text.Split(CsvRow(e), ',') == Cells(e)
  {
    CsvRowIsJoin(e);
    FareTextIsPlain(e.Fare());
    StatusTextIsPlain(e.Status());
    Text.SplitJoin(Cells(e), ',');
  }

  /** A line holds no line break when its fields are plain. */
  lemma CsvRowHasNoBreak(e: Entry)
    requires Plain(e)
    ensures '\n' !in CsvRow(e)
  {
    FareTextIsPlain(e.Fare());
    StatusTextIsPlain(e.Status());
  }

  /** Splitting the export on line breaks gives back the header line and one line per
      entry, in order; with no entries the header is followed by an empty line. */
  lemma CsvRoundTrip(entries: seq<Entry>)
    requires forall i :: 0 <= i < |entries| ==> Plain(entries[i])
    ensures Text.Split(Csv(entries), '\n') ==
      [HeaderLine] + (if |entries| == 0 then [""] else CsvRows(entries))
  {
    var rows := CsvRows(entries);
    HeaderSplits(Text.Join(rows, '\n'));
    if |entries| > 0 {
      CsvRowsHaveNoBreak(entries);
      Text.SplitJoin(rows, '\n');
    }
  }

  /** The header is the first line of whatever follows it. */
  lemma HeaderSplits(rest: string)
    ensures Text.Split(Header + rest, '\n') == [HeaderLine] + Text.Split(rest, '\n')
  {
    assert Header == HeaderLine + ['\n'];
    assert '\n' !in HeaderLine;
    Text.SplitAfterPiece(HeaderLine, rest, '\n');
  }

  /** No exported row contains a line break. */
  lemma CsvRowsHaveNoBreak(entries: seq<Entry>)
    requires forall i :: 0 <= i < |entries| ==> Plain(entries[i])
    ensures forall i :: 0 <= i < |CsvRows(entries)| ==> '\n' !in CsvRows(entries)[i]
  {
    var rows := CsvRows(entries);
    forall i | 0 <= i < |rows|
      ensures '\n' !in rows[i]
    {
      CsvRowHasNoBreak(entries[i]);
    }
  }

  /** A comma inside a passenger's name shifts the columns: the line splits into six
      cells, and the driver lands in the fourth column instead of the third. */
  lemma CommaInNameShiftsColumns(e: Entry, first: string, last: string)
    requires e.Passenger() == first + "," + last
    requires ',' !in e.Date() && ',' !in first && ',' !in last && ',' !in e.Driver()
    ensures Text.Split(CsvRow(e), ',') ==
      [e.Date(), first, last, e.Driver(), FareText(e.Fare()), StatusText(e.Status())]
  {
    FareTextIsPlain(e.Fare());
    StatusTextIsPlain(e.Status());
    LineWithCommaSplitsInSix(e.Date(), first, last, e.Driver(), FareText(e.Fare()), StatusText(e.Status()));
  }

  lemma LineWithCommaSplitsInSix(date: string, first: string, last: string, driver: string, fare: string, status: string)
    requires ',' !in date && ',' !in first && ',' !in last && ',' !in driver && ',' !in fare && ',' !in status
    ensures Text.Split(CsvLine(date, first + "," + last, driver, fare, status), ',') ==
      [date, first, last, driver, fare, status]
  {
    var t4 := fare + [','] + status;
    var t3 := driver + [','] + t4;
    var t2 := last + [','] + t3;
    var t1 := first + [','] + t2;
    CsvLineNested(date, first + "," + last, driver, fare, status);
    assert (first + "," + last) + [','] + t3 == t1;
    Text.SplitWithout(status, ',');
    Text.SplitAfterPiece(fare, status, ',');
    Text.SplitAfterPiece(driver, t4, ',');
    Text.SplitAfterPiece(last, t3, ',');
    Text.SplitAfterPiece(first, t2, ',');
    Text.SplitAfterPiece(date, t1, ',');
  }

  /** `new Date(b.date) - new Date(a.date)`: later dates first. */
  function NewerFirst(a: Entry, b: Entry): bool
  {
    Text.LexLe(b.Date(), a.Date())
  }

  lemma NewerFirstIsTotalPreorder()
    ensures Sorting.IsTotalPreorder(NewerFirst)
  {
    forall a: Entry, b: Entry, c: Entry | NewerFirst(a, b) && NewerFirst(b, c)
      ensures NewerFirst(a, c)
    {
      Text.LexLeTransitive(c.Date(), b.Date(), a.Date());
    }
    forall a: Entry, b: Entry
      ensures NewerFirst(a, b) || NewerFirst(b, a)
    {
      Text.LexLeTotal(a.Date(), b.Date());
    }
  }

  /** The table's order: the same entries, newest first. */
  function Displayed(entries: seq<Entry>): (r: seq<Entry>)
    ensures multiset(r) == multiset(entries)
    ensures forall i, j :: 0 <= i < j < |r| ==> Text.LexLe(r[j].Date(), r[i].Date())
  {
    NewerFirstIsTotalPreorder();
    Sorting.Sort(entries, NewerFirst)
  }

  /** The date cell: the date, followed by " at " and the time when there is one. */
  function DateCell(e: Entry): (cell: string)
    ensures |cell| >= |e.Date()| && cell[..|e.Date()|] == e.Date()
    ensures e.Time() == "" <==> cell == e.Date()
    ensures e.Time() != "" ==> cell[|e.Date()|..] == " at " + e.Time()
  {
    e.Date() + (if e.Time() != "" then " at " + e.Time() else "")
  }

  /** The fare cell: 'N/A' as is, a number after a dollar sign. */
  function FareCell(e: Entry): (cell: string)
    ensures e.Fare().NotApplicable? ==> cell == "N/A"
    ensures e.Fare().Amount? ==> |cell| > 0 && cell[0] == '$' && cell[1..] == FareText(e.Fare())
  {
    if e.Fare().NotApplicable? then "N/A" else "$" + FareText(e.Fare())
  }

  datatype Colour = Green | Red | Yellow | Blue | Gray

  /** `getStatusColor`, with the gray default. */
  function StatusColour(st: Status): Colour
  {
    match st
    case Completed => Green
    case Cancelled => Red
    case Pending => Yellow
    case InProgress => Blue
    case _ => Gray
  }

  /** Every status the history can hold has its own colour; only a 'Scheduled' status,
      which the projection always replaces by 'Pending', would fall to the gray default. */
  lemma ColoursDistinguishStatuses(a: Status, b: Status)
    ensures StatusColour(a) == Gray <==> a == Scheduled
    ensures StatusColour(a) == StatusColour(b) && a != Scheduled ==> a == b
  {
  }

  /** One table row per entry, in display order; none when there are no entries (the
      table then shows 'No ride history available.'). */
  datatype Row = Row(date: string, passenger: string, driver: string, fare: string, status: string, colour: Colour)

  /** The six cells of one entry's row. */
  function RowOf(e: Entry): Row
  {
    Row(DateCell(e), e.Passenger(), e.Driver(), FareCell(e), StatusText(e.Status()), StatusColour(e.Status()))
  }

  /** The table shows every entry exactly once, newest date first, each as its full row. */
  function Table(entries: seq<Entry>): (rows: seq<Row>)
    ensures |rows| == |entries|
    ensures exists shown: seq<Entry> ::
      && multiset(shown) == multiset(entries)
      && (forall i, j :: 0 <= i < j < |shown| ==> Text.LexLe(shown[j].Date(), shown[i].Date()))
      && |shown| == |rows|
      && (forall i :: 0 <= i < |rows| ==> rows[i] == RowOf(shown[i]))
  {
    var shown := Displayed(entries);
    assert |shown| == |multiset(shown)| == |entries|;
    seq(|shown|, i requires 0 <= i < |shown| => RowOf(shown[i]))
  }
}
