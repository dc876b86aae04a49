/**
 * The configuration: each setting with its default and the constraints the
 * settings class checks when it is built (numeric bounds, literal choices
 * and the `HH:MM` start time).  Reading the environment and the `.env` file
 * is left to the caller: the model validates a record of raw values.
 */
module Settings {
  import opened Common

  // ---------------------------------------------------------------------------
  // validate_time_format
  // ---------------------------------------------------------------------------

  /** `hour, minute = int(parts[0]), int(parts[1])` after splitting on ':';
      None where the split does not give two pieces or an `int()` fails. */
  function HourMinute(v: string): Option<(int, int)> {
    var parts := SplitOn(v, ':');
    if |parts| != 2 then None
    else
      match ParseInt(parts[0])
      case None => None
      case Some(hour) =>
        match ParseInt(parts[1])
        case None => None
        case Some(minute) => Some((hour, minute))
  }

  /** `validate_time_format`: the value unchanged when it is an hour 0..23 and
      a minute 0..59 separated by one colon; None where a ValueError is raised. */
  function ValidateTimeFormat(v: string): (r: Option<string>)
    ensures r.Some? ==> r.value == v
    ensures r.Some? ==> multiset(v)[':'] == 1
    ensures r.Some? ==> HourMinute(v).Some? && 0 <= HourMinute(v).value.0 <= 23 && 0 <= HourMinute(v).value.1 <= 59
  {
    SplitOnCount(v, ':');
    match HourMinute(v)
    case None => None
    case Some(hm) => if 0 <= hm.0 <= 23 && 0 <= hm.1 <= 59 then Some(v) else None
  }

  /** Splitting `a:b`, where neither side holds a colon, gives the two sides. */
  lemma SplitAtColon(a: string, b: string)
    requires ':' !in a && ':' !in b
    ensures SplitOn(a + ":" + b, ':') == [a, b]
  {
    assert a + ":" + b == a + [':'] + b;
    SplitOnSeparated(a, b, ':');
  }

  lemma DigitsHaveNoColon(d: string)
    requires IsDigits(d)
    ensures ':' !in d
  {
  }

  /** Two runs of digits around one colon are accepted exactly when the hour
      is at most 23 and the minute at most 59 (so "19:00" and "7:05" pass,
      "25:00" and "12:60" do not). */
  lemma TimeOfDigits(a: string, b: string)
    requires IsDigits(a) && IsDigits(b)
    ensures HourMinute(a + ":" + b) == Some((DigitsValue(a) as int, DigitsValue(b) as int))
    ensures ValidateTimeFormat(a + ":" + b).Some? <==> DigitsValue(a) <= 23 && DigitsValue(b) <= 59
  {
    DigitsHaveNoColon(a);
    DigitsHaveNoColon(b);
    SplitAtColon(a, b);
    ParseIntOfDigits(a);
    ParseIntOfDigits(b);
  }

  /** Every `HH:MM` time of day, zero-padded, is accepted. */
  lemma PaddedTimesAccepted(h: nat, m: nat)
    requires h <= 23 && m <= 59
    ensures ValidateTimeFormat(Pad2(h) + ":" + Pad2(m)) == Some(Pad2(h) + ":" + Pad2(m))
  {
    TimeOfDigits(Pad2(h), Pad2(m));
  }

  /** A negative hour such as "-1:00" is rejected. */
  lemma NegativeHourRejected(n: nat, b: string)
    requires n > 0 && IsDigits(b)
    ensures ValidateTimeFormat("-" + NatToString(n) + ":" + b).None?
  {
    var a := "-" + NatToString(n);
    assert ':' !in a by {
      assert forall i :: 1 <= i < |a| ==> a[i] == NatToString(n)[i - 1];
    }
    DigitsHaveNoColon(b);
    SplitAtColon(a, b);
    ParseIntOfNegative(n);
  }

  // ---------------------------------------------------------------------------
  // The settings record
  // ---------------------------------------------------------------------------

  datatype Config = Config(
    mediaRoot: string,
    introPath: string,
    outroPath: string,
    startTime: string,
    targetDurationMinutes: int,
    repeatCooldownDays: int,
    databaseUrl: string,
    logLevel: string,
    logFile: string,
    player: string,
    display: string,
    clockUpdateInterval: int,
    clockSvgPath: string,
    feedbackTimeout: int,
    feedbackPort: int,
    debug: bool,
    dryRun: bool)

  /** The defaults of every field. */
  function Defaults(): Config {
    Config(
      "/mnt/media/cartoons", "/mnt/media/intros/alma_intro.mp4", "/mnt/media/outros/alma_outro.mp4",
      "19:00", 30, 14, "sqlite:///var/lib/alma/alma.db", "INFO", "/var/log/alma/alma.log",
      "vlc", ":0", 60, "/var/cache/alma/clock.svg", 120, 8080, false, false)
  }

  function LogLevels(): set<string> { {"DEBUG", "INFO", "WARNING", "ERROR", "CRITICAL"} }

  function Players(): set<string> { {"vlc", "omxplayer"} }

  /** The validated fields, in declaration order. */
  datatype Field = StartTime | TargetDurationMinutes | RepeatCooldownDays | LogLevel | Player
                 | ClockUpdateInterval | FeedbackTimeout | FeedbackPort

  /** The field's name in the settings and in a validation error. */
  function FieldName(f: Field): string {
    match f
    case StartTime => "start_time"
    case TargetDurationMinutes => "target_duration_minutes"
    case RepeatCooldownDays => "repeat_cooldown_days"
    case LogLevel => "log_level"
    case Player => "player"
    case ClockUpdateInterval => "clock_update_interval"
    case FeedbackTimeout => "feedback_timeout"
    case FeedbackPort => "feedback_port"
  }

  /** Whether a field passes its constraint. */
  predicate FieldOk(c: Config, f: Field) {
    match f
    case StartTime => ValidateTimeFormat(c.startTime).Some?
    case TargetDurationMinutes => 15 <= c.targetDurationMinutes <= 60
    case RepeatCooldownDays => c.repeatCooldownDays >= 1
    case LogLevel => c.logLevel in LogLevels()
    case Player => c.player in Players()
    case ClockUpdateInterval => c.clockUpdateInterval >= 1
    case FeedbackTimeout => c.feedbackTimeout >= 30
    case FeedbackPort => 1024 <= c.feedbackPort <= 65535
  }

  /** Every validated field, in declaration order. */
  function AllFields(): (fs: seq<Field>)
    ensures forall i, j :: 0 <= i < j < |fs| ==> fs[i] != fs[j]
  {
    var fs := [StartTime, TargetDurationMinutes, RepeatCooldownDays, LogLevel, Player, ClockUpdateInterval,
               FeedbackTimeout, FeedbackPort];
    fs
  }

  /** No field is left out of `AllFields`. */
  lemma InAllFields(f: Field)
    ensures f in AllFields()
  {
    var fs := AllFields();
    match f
    case StartTime => assert fs[0] == f;
    case TargetDurationMinutes => assert fs[1] == f;
    case RepeatCooldownDays => assert fs[2] == f;
    case LogLevel => assert fs[3] == f;
    case Player => assert fs[4] == f;
    case ClockUpdateInterval => assert fs[5] == f;
    case FeedbackTimeout => assert fs[6] == f;
    case FeedbackPort => assert fs[7] == f;
  }

  /** The fields of `fs` that fail their constraint, in order. */
  function Failing(c: Config, fs: seq<Field>): (errs: seq<Field>)
    ensures forall f :: f in errs <==> f in fs && !FieldOk(c, f)
    ensures (forall i, j :: 0 <= i < j < |fs| ==> fs[i] != fs[j]) ==>
      forall i, j :: 0 <= i < j < |errs| ==> errs[i] != errs[j]
  {
    if fs == [] then []
    else
      var rest := Failing(c, fs[1..]);
      if FieldOk(c, fs[0]) then rest else [fs[0]] + rest
  }

  /** The fields that fail their constraint, in declaration order, each once. */
  function FieldErrors(c: Config): (errs: seq<Field>)
    ensures errs == [] <==>
      ValidateTimeFormat(c.startTime).Some? &&
      15 <= c.targetDurationMinutes <= 60 && c.repeatCooldownDays >= 1 &&
      c.logLevel in LogLevels() && c.player in Players() &&
      c.clockUpdateInterval >= 1 && c.feedbackTimeout >= 30 && 1024 <= c.feedbackPort <= 65535
    ensures forall f :: f in errs <==> !FieldOk(c, f)
    ensures forall i, j :: 0 <= i < j < |errs| ==> errs[i] != errs[j]
  {
    var errs := Failing(c, AllFields());
    assert forall f :: f in AllFields() by {
      forall f ensures f in AllFields() {
        InAllFields(f);
      }
    }
    assert errs == [] <==> forall f :: FieldOk(c, f) by {
      if errs != [] {
        assert errs[0] in errs;
      }
    }
    assert (forall f :: FieldOk(c, f)) <==>
      FieldOk(c, StartTime) && FieldOk(c, TargetDurationMinutes) && FieldOk(c, RepeatCooldownDays) &&
      FieldOk(c, LogLevel) && FieldOk(c, Player) && FieldOk(c, ClockUpdateInterval) &&
      FieldOk(c, FeedbackTimeout) && FieldOk(c, FeedbackPort);
    errs
  }

  /** Building the settings: the record itself when every field passes,
      otherwise the failing field names (a validation error). */
  datatype Validated = Valid(config: Config) | Invalid(fields: seq<Field>)

  function Validate(c: Config): (r: Validated)
    ensures r.Valid? ==> r.config == c
    ensures r.Invalid? ==> |r.fields| >= 1 && r.fields == FieldErrors(c)
    ensures r.Valid? <==>
      ValidateTimeFormat(c.startTime).Some? &&
      15 <= c.targetDurationMinutes <= 60 && c.repeatCooldownDays >= 1 &&
      c.logLevel in LogLevels() && c.player in Players() &&
      c.clockUpdateInterval >= 1 && c.feedbackTimeout >= 30 && 1024 <= c.feedbackPort <= 65535
  {
    var errs := FieldErrors(c);
    if errs == [] then Valid(c) else Invalid(errs)
  }

  /** The defaults pass every constraint. */
  lemma DefaultsValid()
    ensures Validate(Defaults()) == Valid(Defaults())
  {
    assert Defaults().startTime == Pad2(19) + ":" + Pad2(0);
    PaddedTimesAccepted(19, 0);
  }
}
