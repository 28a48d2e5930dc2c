/**
 * The CPR-number recogniser (lib/cpr-detector.cpp): one left-to-right pass
 * over the text with a ten-state automaton. All automaton state lives in a
 * `Scan` record local to one call, so `FindMatches` is a function of the
 * detector's configuration and the text alone.
 */
module CprDetector {
  import opened Optional
  import opened Rules
  import opened CprChars
  import opened CprNumber

  /** Empty, then one state per digit already in the buffer, Match waiting for the tenth. */
  datatype State = Empty | First | Second | Third | Fourth | Fifth | Sixth | Seventh | Eighth | Match

  /** Number of digits stored in the candidate buffer in each state. */
  function Stored(st: State): nat
  {
    match st
    case Empty => 0
    case First => 1
    case Second => 2
    case Third => 3
    case Fourth => 4
    case Fifth => 5
    case Sixth => 6
    case Seventh => 7
    case Eighth => 8
    case Match => 9
  }

  /** The detector's configuration; nothing else is stored on it. */
  datatype Detector = Detector(checkMod11: bool, examineContext: bool)

  /** The constructor with its defaults: both flags off. */
  function NewDetector(checkMod11: bool := false, examineContext: bool := false): (d: Detector)
    ensures d.checkMod11 == checkMod11 && d.examineContext == examineContext
  {
    Detector(checkMod11, examineContext)
  }

  /** Every match of the detector is reported as Critical. */
  const DetectorSensitivity: Sensitivity := Critical

  /** The default detector checks no checksum and examines no context; its matches are the top tier. */
  lemma Defaults()
    ensures !NewDetector().checkMod11 && !NewDetector().examineContext
    ensures NewDetector(true) == Detector(true, false)
    ensures Level(DetectorSensitivity) == 1000
  {
  }

  /** The ten-character candidate buffer. */
  type Buffer = b: seq<char> | |b| == 10 witness ['\0', '\0', '\0', '\0', '\0', '\0', '\0', '\0', '\0', '\0']

  /**
   * How offsets and the tenth character are treated. `AsWritten` follows the
   * source: offsets come from a counter that the `continue` statements skip,
   * and a match is appended even when the tenth character was rejected.
   * `Intended` takes offsets from the true character index and appends only
   * ten digits. Everything else is shared.
   */
  datatype Mode = AsWritten | Intended

  /**
   * The automaton configuration: state, candidate buffer, previous-character
   * register, offset of the candidate's first digit, whether a separator may
   * be skipped next, the February-29 flag, the index of the character about
   * to be read (`pos`) and the source's counter (`count`).
   */
  datatype Scan = Scan(
    state: State,
    cpr: Buffer,
    previous: char,
    begin: nat,
    allowSeparator: bool,
    leapYear: bool,
    pos: nat,
    count: nat)

  /** The configuration at the start of every call. */
  const Initial: Scan := Scan(Empty, ['\0', '\0', '\0', '\0', '\0', '\0', '\0', '\0', '\0', '\0'], '\0', 0, false, false, 0, 0)

  /** One step: the next configuration and the match appended, if any. */
  datatype Outcome = Outcome(next: Scan, emitted: Option<MatchResult>)

  /** The acceptance predicates the automaton switches between. */
  datatype CharClass = Among(chars: seq<char>) | AnyDigit | NonzeroDigit

  predicate Admits(cls: CharClass, c: char)
  {
    match cls
    case Among(ds) => |ds| >= 1 && MakePredicate(ds, c)
    case AnyDigit => IsDigit(c)
    case NonzeroDigit => IsNonzeroDigit(c)
  }

  /** update: move to the target state and hand back c, or reset and hand back NUL. */
  function Update(c: char, target: State, cls: CharClass): (State, char)
  {
    if Admits(cls, c) then (target, c) else (Empty, '\0')
  }

  /** The outcome of check_day_month: whether the candidate survives, and the leap-year flag. */
  datatype DayMonth = DayMonth(survives: bool, leap: bool)

  /**
   * check_day_month: February 29 raises the leap-year flag, February 30 and
   * 31 reset, and day 31 resets in the months the odd/even rule marks as
   * short (April, June, September, November).
   */
  function CheckDayMonth(cpr: seq<char>): DayMonth
    requires |cpr| >= 4
  {
    var day := Stoi(cpr[0..2]);
    var month := Stoi(cpr[2..4]);
    if month == 2 then
      if day == 29 then DayMonth(true, true)
      else if day > 29 then DayMonth(false, false)
      else DayMonth(true, false)
    else if day > 30 && !((month > 7 && month % 2 == 0) || (month < 8 && month % 2 != 0)) then
      DayMonth(false, false)
    else DayMonth(true, false)
  }

  /** check_leap_year: whether the candidate survives once the year is known. */
  function CheckLeapYear(cpr: seq<char>): bool
    requires |cpr| >= 7
  {
    var year := Stoi(cpr[4..6]);
    var control := Stoi(cpr[6..7]);
    !(control < 4 && year == 0) && year % 4 == 0
  }

  /**
   * check_mod11 on the first ten characters of a match. The sum is a
   * multiple of 11 under truncating and Euclidean remainder alike.
   */
  method CheckMod11(m: MatchResult) returns (ok: bool)
    requires |m.text| >= 10
    ensures ok <==> PassesModulus11(m.text)
  {
    var sum := 0;
    var i := 0;
    while i < 10
      invariant 0 <= i <= 10
      invariant sum == WeightedSum(m.text, i)
    {
      sum := sum + DigitValue(m.text[i]) * Modulus11Factors[i];
      i := i + 1;
    }
    ok := sum % 11 == 0;
  }

  /** check_and_append_cpr: reject control 0000, then apply the checksum when enabled. */
  function CheckAndAppend(det: Detector, cpr: Buffer, begin: nat, end: nat): Option<MatchResult>
  {
    if Stoi(cpr[6..10]) > 0 && (!det.checkMod11 || PassesModulus11(cpr)) then
      Some(NewMatch(cpr, begin, end, DetectorSensitivity))
    else None
  }

  /** The offset recorded for the current character. */
  function Here(mode: Mode, s: Scan): nat
  {
    if mode == Intended then s.pos else s.count
  }

  /** The loop's `continue`: the counter is not incremented. */
  function Skip(s: Scan): Scan
  {
    s.(pos := s.pos + 1)
  }

  /** The loop's normal end: `++count`. */
  function Advance(s: Scan): Scan
  {
    s.(pos := s.pos + 1, count := s.count + 1)
  }

  function Quiet(s: Scan): Outcome
  {
    Outcome(s, None)
  }

  /**
   * The body of the scanning loop for character c, with `ahead` the
   * character after it (NUL at the end of the text).
   */
  function Step(mode: Mode, det: Detector, c: char, ahead: char, s: Scan): (o: Outcome)
    ensures o.next.pos == s.pos + 1
    ensures o.emitted.Some? ==> var m := o.emitted.value;
      && s.state == Match && o.next.state == Empty
      && m.start == s.begin && m.end == Here(mode, s) && o.next.count == s.count + 1
      && |m.text| == 10 && m.sensitivity == Critical && m.probability == 1.0
      && (IsDigit(m.text[9]) || (mode == AsWritten && m.text[9] == '\0'))
  {
    match s.state
    case Empty =>
      if !IsPreviousOk(s.previous) then
        Quiet(Skip(s.(previous := c)))
      else
        var (st, _) := Update(c, First, Among("0123"));
        if st == First then
          Quiet(Advance(s.(state := First, previous := c, cpr := s.cpr[0 := c], begin := Here(mode, s))))
        else
          Quiet(Advance(s.(previous := c)))
    case First =>
      var cls :=
        if s.previous == '0' then Some(NonzeroDigit)
        else if s.previous == '1' || s.previous == '2' then Some(AnyDigit)
        else if s.previous == '3' then Some(Among("01"))
        else None;
      // The fallback resets without counting; it is never taken, since
      // First is entered only with 0-3 as previous character.
      if cls.None? then
        Quiet(Skip(s.(state := Empty, previous := c)))
      else
        var (st, ch) := Update(c, Second, cls.value);
        Quiet(Advance(s.(state := st, previous := ch, cpr := s.cpr[1 := ch],
                         allowSeparator := ch != '\0' || s.allowSeparator)))
    case Second =>
      if IsSpace(c) && s.allowSeparator then
        Quiet(Skip(s.(allowSeparator := false)))
      else
        var (st, ch) := Update(c, Third, Among("01"));
        Quiet(Advance(s.(state := st, previous := ch, cpr := s.cpr[2 := ch])))
    case Third =>
      var cls :=
        if s.previous == '0' then Some(NonzeroDigit)
        else if s.previous == '1' then Some(Among("012"))
        else None;
      // Never taken: Third is entered only with 0 or 1 as previous character.
      if cls.None? then
        Quiet(Skip(s.(state := Empty, previous := '\0')))
      else
        var (st, ch) := Update(c, Fourth, cls.value);
        var cpr := s.cpr[3 := ch];
        // On a rejected fourth digit the month reads as the single digit 0 or
        // 1, so check_day_month returns false; it is evaluated only on success.
        var dm := if st == Fourth then CheckDayMonth(cpr) else DayMonth(true, false);
        Quiet(Advance(s.(state := if dm.survives then st else Empty, previous := ch, cpr := cpr,
                         leapYear := dm.leap, allowSeparator := ch != '\0' || s.allowSeparator)))
    case Fourth =>
      if IsSpace(c) && s.allowSeparator then
        Quiet(Skip(s.(allowSeparator := false)))
      else
        var (st, ch) := Update(c, Fifth, AnyDigit);
        Quiet(Advance(s.(state := st, previous := ch, cpr := s.cpr[4 := ch])))
    case Fifth =>
      var cls := if s.previous == '0' then NonzeroDigit else AnyDigit;
      var (st, ch) := Update(c, Sixth, cls);
      Quiet(Advance(s.(state := st, previous := ch, cpr := s.cpr[5 := ch],
                       allowSeparator := ch != '\0' || s.allowSeparator)))
    case Sixth =>
      if s.allowSeparator && IsSeparator(c) then
        Quiet(Skip(s.(allowSeparator := false)))
      else
        var (st, ch) := Update(c, Seventh, AnyDigit);
        var cpr := s.cpr[6 := ch];
        // A rejected seventh digit with the leap-year flag set makes the
        // source call std::stoi on "\0"; that is modelled as the reset it
        // already is.
        var survives := !s.leapYear || st != Seventh || CheckLeapYear(cpr);
        Quiet(Advance(s.(state := if survives then st else Empty, previous := ch, cpr := cpr)))
    case Seventh =>
      var (st, ch) := Update(c, Eighth, AnyDigit);
      Quiet(Advance(s.(state := st, previous := ch, cpr := s.cpr[7 := ch])))
    case Eighth =>
      var (st, ch) := Update(c, Match, AnyDigit);
      Quiet(Advance(s.(state := st, previous := ch, cpr := s.cpr[8 := ch])))
    case Match =>
      var (st, ch) := Update(c, Match, AnyDigit);
      var cpr := s.cpr[9 := ch];
      var found :=
        if IsPreviousOk(ahead) && (mode == AsWritten || st == Match) then CheckAndAppend(det, cpr, s.begin, Here(mode, s))
        else None;
      Outcome(Advance(s.(state := Empty, previous := c, cpr := cpr, allowSeparator := false)), found)
  }

  /** The character after index i, NUL past the end (what `*(++ahead)` reads). */
  function Ahead(text: seq<char>, i: nat): char
  {
    if i + 1 < |text| then text[i + 1] else '\0'
  }

  /** The scanning loop from configuration s to the end of the text. */
  function Run(mode: Mode, det: Detector, text: seq<char>, s: Scan): (r: seq<MatchResult>)
    requires s.pos <= |text|
    ensures |r| <= |text| - s.pos
    ensures forall m :: m in r ==>
      && |m.text| == 10 && m.sensitivity == Critical && m.probability == 1.0
      && (IsDigit(m.text[9]) || (mode == AsWritten && m.text[9] == '\0'))
      && (mode == Intended ==> m.end < |text|)
    decreases |text| - s.pos
  {
    if s.pos == |text| then []
    else
      var o := Step(mode, det, text[s.pos], Ahead(text, s.pos), s);
      (if o.emitted.Some? then [o.emitted.value] else []) + Run(mode, det, text, o.next)
  }

  /** find_matches with offsets as the true character indices and ten-digit matches only. */
  function FindMatches(det: Detector, text: seq<char>): (r: seq<MatchResult>)
    ensures |text| < 10 ==> r == []
    ensures forall m :: m in r ==>
      |m.text| == 10 && IsDigit(m.text[9]) && m.end < |text| && m.sensitivity == Critical
  {
    if |text| < 10 then [] else Run(Intended, det, text, Initial)
  }

  /** find_matches exactly as the source computes it. */
  function FindMatchesAsWritten(det: Detector, text: seq<char>): (r: seq<MatchResult>)
    ensures |text| < 10 ==> r == []
    ensures forall m :: m in r ==>
      |m.text| == 10 && (IsDigit(m.text[9]) || m.text[9] == '\0') && m.sensitivity == Critical
  {
    if |text| < 10 then [] else Run(AsWritten, det, text, Initial)
  }
}
