/** Advance booking: today's date as the date picker's lower bound, the passenger-count
    field, and the schedule handler with the browser's `required`/`min` checks in front
    of it. The clock and the signed-in user are parameters. */
module AdvanceBooking {
  import opened FleetModel
  import App
  import Text

  /** `getTodayString`: `${year}-${MM}-${DD}`, the month counted from 0 as `getMonth` does. */
  function TodayString(year: nat, monthIndex: nat, day: nat): string
  {
    Text.NatToString(year) + "-" + Text.PadTwo(monthIndex + 1) + "-" + Text.PadTwo(day)
  }

  lemma FourDigitYear(year: nat)
    requires 1000 <= year <= 9999
    ensures |Text.NatToString(year)| == 4
  {
    var a, b, c := year / 10, year / 100, year / 1000;
    assert a / 10 == b && b / 10 == c && 1 <= c < 10 && 10 <= b && 100 <= a;
    assert |Text.NatToString(c)| == 1;
    assert |Text.NatToString(b)| == |Text.NatToString(c)| + 1;
    assert |Text.NatToString(a)| == |Text.NatToString(b)| + 1;
    assert |Text.NatToString(year)| == |Text.NatToString(a)| + 1;
  }

  /** For a four-digit year, a month index 0-11 and a day 1-31 the string is a
      `YYYY-MM-DD` date whose fields read back as the year, the month and the day. */
  lemma TodayStringIsIsoDate(year: nat, monthIndex: nat, day: nat)
    requires 1000 <= year <= 9999 && monthIndex <= 11 && 1 <= day <= 31
    ensures var s := TodayString(year, monthIndex, day);
      && |s| == 10 && s[4] == '-' && s[7] == '-'
      && Text.AllDigits(s[..4]) && Text.DigitsValue(s[..4]) == year
      && Text.AllDigits(s[5..7]) && Text.DigitsValue(s[5..7]) == monthIndex + 1
      && Text.AllDigits(s[8..]) && Text.DigitsValue(s[8..]) == day
  {
    var y := Text.NatToString(year);
    var m := Text.PadTwo(monthIndex + 1);
    var d := Text.PadTwo(day);
    var s := TodayString(year, monthIndex, day);
    FourDigitYear(year);
    assert s == y + "-" + m + "-" + d;
    assert s[..4] == y && s[5..7] == m && s[8..] == d;
    Text.DigitsValueOfNatToString(year);
    Text.PadTwoValue(monthIndex + 1);
    Text.PadTwoValue(day);
  }

  /** `parseInt(value) || 1`: an unreadable entry or a zero becomes 1, any other
      number is kept (negative numbers included). */
  function PassengerCountEntry(text: string): (n: int)
    ensures n != 0
    ensures Text.ParseInt(text).None? ==> n == 1
    ensures Text.ParseInt(text).Some? && Text.ParseInt(text).value != 0 ==> n == Text.ParseInt(text).value
  {
    match Text.ParseInt(text)
    case None => 1
    case Some(v) => if v == 0 then 1 else v
  }

  /** The field shows the count it holds, and reading it back keeps it. */
  lemma PassengerCountRoundTrip(n: int)
    requires n != 0
    ensures PassengerCountEntry(Text.IntToString(n)) == n
  {
    Text.ParseIntOfIntToString(n);
  }

  /** The booking form and its success message. */
  datatype Form = Form(
    pickup: string,
    drop: string,
    date: string,
    time: string,
    vehicleType: VehicleType,
    passengerCount: int,
    message: string)

  const Initial := Form("", "", "", "", Normal, 1, "")

  function ScheduledMessage(f: Form): string
  {
    "Your ride from " + f.pickup + " to " + f.drop + " has been scheduled for " + f.date + " at " + f.time + "."
  }

  predicate Complete(f: Form)
  {
    f.pickup != "" && f.drop != "" && f.date != "" && f.time != ""
  }

  /** `handleScheduleRide`: a complete form is submitted for the signed-in passenger,
      its four text fields are cleared, the vehicle type and passenger count are kept and
      the success message is shown. The date is not compared with today here. An
      incomplete form changes nothing. */
  function HandleScheduleRide(f: Form, s: App.State, id: int, passenger: string): (r: (Form, App.State))
    ensures Complete(f) ==>
      && r.0 == Form("", "", "", "", f.vehicleType, f.passengerCount, ScheduledMessage(f))
      && |r.1.scheduled| == |s.scheduled| + 1 && r.1.scheduled[..|s.scheduled|] == s.scheduled
      && r.1.scheduled[|s.scheduled|]
           == ScheduledRide(id, f.pickup, f.drop, f.date, f.time, f.vehicleType, f.passengerCount, passenger, Scheduled)
    ensures !Complete(f) ==> r == (f, s)
    ensures r.1.(scheduled := s.scheduled) == s
  {
    if !Complete(f) then (f, s)
    else
      var data := App.ScheduleData(f.pickup, f.drop, f.date, f.time, f.vehicleType, f.passengerCount, passenger);
      (f.(pickup := "", drop := "", date := "", time := "", message := ScheduledMessage(f)),
       App.AddScheduledRide(s, data, id))
  }

  /** The browser's constraint validation: every `required` field filled, the date not
      before `min={getTodayString()}` and at least `min="1"` passenger. */
  predicate BrowserAccepts(f: Form, today: string)
  {
    Complete(f) && Text.LexLe(today, f.date) && f.passengerCount >= 1
  }

  function Submit(f: Form, s: App.State, id: int, passenger: string, today: string): (r: (Form, App.State))
    ensures BrowserAccepts(f, today) ==> r == HandleScheduleRide(f, s, id, passenger)
    ensures !BrowserAccepts(f, today) ==> r == (f, s)
  {
    if BrowserAccepts(f, today) then HandleScheduleRide(f, s, id, passenger) else (f, s)
  }

  /** Bookings made through the page are dated today or later and carry at least one
      passenger; only the browser's checks guarantee this. */
  lemma SubmittedBookingIsValid(f: Form, s: App.State, id: int, passenger: string, today: string)
    ensures var r := Submit(f, s, id, passenger, today);
      |r.1.scheduled| > |s.scheduled| ==>
        Text.LexLe(today, r.1.scheduled[|s.scheduled|].date) && r.1.scheduled[|s.scheduled|].passengerCount >= 1
  {
  }

  /** A complete form dated before today is booked by the handler alone; only the
      browser's `min` check keeps it off the list. */
  lemma HandlerAcceptsPastDate(f: Form, s: App.State, id: int, passenger: string, today: string)
    requires Complete(f) && !Text.LexLe(today, f.date)
    ensures |HandleScheduleRide(f, s, id, passenger).1.scheduled| == |s.scheduled| + 1
    ensures Submit(f, s, id, passenger, today) == (f, s)
  {
  }
}
