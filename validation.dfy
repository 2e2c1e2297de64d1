/**
 * The request validators of the planning-system service: the character-class
 * tests `isAlphaNumeric`, `isAlphaNumericWithSpaces` and `isNumeric`, the user,
 * name and event-parameter checks that build a (status, message) pair, and the
 * reading of an `:id` / `?id=` text as a row id.
 *
 * JavaScript strings are modelled as `string`; their `.length` counts UTF-16
 * code units, which `Utf16Length` makes explicit. A field that may be missing
 * from a JSON body is an `Option`, `None` standing for `undefined`.
 */
module Validation {
  import opened Wrappers

  // ---------------------------------------------------------------------------
  // Characters and String.prototype.trim

  /** The characters `String.prototype.trim` strips: WhiteSpace and LineTerminator. */
  predicate IsJsWhitespace(c: char) {
    if c <= ' ' then c == ' ' || '\t' <= c <= '\r'
    else '\U{A0}' <= c && IsWideWhitespace(c)
  }

  /** The whitespace and line terminators of `trim` beyond ASCII. */
  predicate IsWideWhitespace(c: char) {
    || c == '\U{A0}' || c == '\U{1680}' || ('\U{2000}' <= c <= '\U{200A}')
    || c == '\U{2028}' || c == '\U{2029}' || c == '\U{202F}' || c == '\U{205F}'
    || c == '\U{3000}' || c == '\U{FEFF}'
  }

  predicate IsAsciiDigit(c: char) {
    '0' <= c <= '9'
  }

  /** `[a-z0-9]` under the `i` flag: ASCII letters of either case and digits. */
  predicate IsAsciiAlphaNumeric(c: char) {
    ('a' <= c <= 'z') || ('A' <= c <= 'Z') || IsAsciiDigit(c)
  }

  /** Drops leading whitespace. */
  function TrimStart(s: string): (r: string)
    ensures |r| <= |s| && r == s[|s| - |r|..]
    ensures forall k :: 0 <= k < |s| - |r| ==> IsJsWhitespace(s[k])
    ensures r == [] || !IsJsWhitespace(r[0])
  {
    if |s| > 0 && IsJsWhitespace(s[0]) then TrimStart(s[1..]) else s
  }

  /** Drops trailing whitespace. */
  function TrimEnd(s: string): (r: string)
    ensures |r| <= |s| && r == s[..|r|]
    ensures forall k :: |r| <= k < |s| ==> IsJsWhitespace(s[k])
    ensures r == [] || !IsJsWhitespace(r[|r| - 1])
  {
    if |s| > 0 && IsJsWhitespace(s[|s| - 1]) then TrimEnd(s[..|s| - 1]) else s
  }

  /** `input.trim()`: `input` without its leading and trailing whitespace. */
  function Trim(s: string): (r: string)
    ensures r == [] || (!IsJsWhitespace(r[0]) && !IsJsWhitespace(r[|r| - 1]))
  {
    var t := TrimStart(s);
    assert TrimEnd(t) != [] ==> TrimEnd(t)[0] == t[0];
    TrimEnd(t)
  }

  /** `r` is `s` with `i` whitespace characters cut from the front and only whitespace from the back. */
  predicate StrippedAt(s: string, r: string, i: int) {
    && 0 <= i <= |s| - |r| && r == s[i..i + |r|]
    && (forall k :: 0 <= k < i ==> IsJsWhitespace(s[k]))
    && (forall k :: i + |r| <= k < |s| ==> IsJsWhitespace(s[k]))
  }

  /** What `trim` removes is whitespace only: the leading run and a trailing run. */
  lemma TrimStrips(s: string)
    ensures StrippedAt(s, Trim(s), |s| - |TrimStart(s)|)
  {
    TrimKeepsSlice(s);
    TrimDropsTrailing(s);
  }

  lemma TrimKeepsSlice(s: string)
    ensures var i := |s| - |TrimStart(s)|; Trim(s) == s[i..i + |Trim(s)|]
  {
    var t := TrimStart(s);
    var r := TrimEnd(t);
    var i := |s| - |t|;
    assert Trim(s) == r;
    assert t == s[i..];
    assert r == t[..|r|];
    SliceOfSuffix(s, i, |r|);
  }

  lemma SliceOfSuffix(s: string, i: nat, n: nat)
    requires i + n <= |s|
    ensures s[i..][..n] == s[i..i + n]
  {
  }

  lemma TrimDropsTrailing(s: string)
    ensures var i := |s| - |TrimStart(s)|;
      forall k :: i + |Trim(s)| <= k < |s| ==> IsJsWhitespace(s[k])
  {
    var t := TrimStart(s);
    var r := TrimEnd(t);
    var i := |s| - |t|;
    assert t == s[i..];
    forall k | i + |r| <= k < |s|
      ensures IsJsWhitespace(s[k])
    {
      assert IsJsWhitespace(t[k - i]);
      assert s[k] == t[k - i];
    }
  }

  /** A string with no whitespace at either end is left as it is by `trim`. */
  lemma TrimKeepsTrimmed(s: string)
    requires s == [] || (!IsJsWhitespace(s[0]) && !IsJsWhitespace(s[|s| - 1]))
    ensures Trim(s) == s
  {
    assert TrimStart(s) == s;
  }

  /** Trimming twice is trimming once. */
  lemma TrimIdempotent(s: string)
    ensures Trim(Trim(s)) == Trim(s)
  {
    TrimKeepsTrimmed(Trim(s));
  }

  // ---------------------------------------------------------------------------
  // The regular expressions /^[a-z0-9]+$/i, /^[a-z0-9 ]+$/i and /^[0-9]+$/i

  datatype CharClass = AlphaNumeric | AlphaNumericOrSpace | Digit

  predicate InClass(cls: CharClass, c: char) {
    match cls
    case AlphaNumeric => IsAsciiAlphaNumeric(c)
    case AlphaNumericOrSpace => IsAsciiAlphaNumeric(c) || c == ' '
    case Digit => IsAsciiDigit(c)
  }

  /** Matching `^[cls]+$`, one character at a time from the left. */
  function MatchesOneOrMore(s: string, cls: CharClass): (r: bool)
    ensures r <==> |s| >= 1 && forall i :: 0 <= i < |s| ==> InClass(cls, s[i])
  {
    |s| >= 1 && InClass(cls, s[0]) && (|s| == 1 || MatchesOneOrMore(s[1..], cls))
  }

  /** `isAlphaNumeric`: the trimmed input is a non-empty run of ASCII letters and digits. */
  function IsAlphaNumeric(input: string): (r: bool)
    ensures var t := Trim(input);
      r <==> |t| >= 1 && forall i :: 0 <= i < |t| ==> IsAsciiAlphaNumeric(t[i])
  {
    MatchesOneOrMore(Trim(input), AlphaNumeric)
  }

  /** `isAlphaNumericWithSpaces`: as `isAlphaNumeric`, with inner spaces allowed. */
  function IsAlphaNumericWithSpaces(input: string): (r: bool)
    ensures var t := Trim(input);
      r <==> |t| >= 1 && forall i :: 0 <= i < |t| ==> IsAsciiAlphaNumeric(t[i]) || t[i] == ' '
  {
    MatchesOneOrMore(Trim(input), AlphaNumericOrSpace)
  }

  /** `isNumeric`: the trimmed input is a non-empty run of ASCII digits. */
  function IsNumeric(input: string): (r: bool)
    ensures var t := Trim(input);
      r <==> |t| >= 1 && forall i :: 0 <= i < |t| ==> IsAsciiDigit(t[i])
  {
    MatchesOneOrMore(Trim(input), Digit)
  }

  // ---------------------------------------------------------------------------
  // Lengths

  /** The number of UTF-16 code units JavaScript stores for `c`. */
  function CodeUnits(c: char): nat {
    if c as int > 0xFFFF then 2 else 1
  }

  /** JavaScript's `s.length`: the number of UTF-16 code units of `s`. */
  function Utf16Length(s: string): (n: nat)
    ensures |s| <= n <= 2 * |s|
    ensures (forall i :: 0 <= i < |s| ==> s[i] as int <= 0xFFFF) ==> n == |s|
  {
    if s == [] then 0 else CodeUnits(s[0]) + Utf16Length(s[1..])
  }

  // ---------------------------------------------------------------------------
  // (status, message) checks

  /** The sentences the validators append to their message, one constructor each. */
  datatype Problem =
    | UsernameUndefined | FirstnameUndefined | LastnameUndefined
    | UsernameEmpty | FirstnameTooShort | LastnameTooShort | UsernameNotAlphaNumeric
    | EventTypeIDUndefined | OrganizerIDUndefined | NameUndefined | PriceUndefined
    | DateTimeUndefined | LatitudeUndefined | LongitudeUndefined | MaxParticipantsUndefined
    | NameEmpty | NameNotAlphaNumericWithSpaces | NameLength
    | EventTypeIDNotNumber | OrganizerIDNotNumber | PriceNotPositive | DateTimeNotInFuture
    | LatitudeOutOfRange | LongitudeOutOfRange | MaxParticipantsNotPositive

  /** The text the source appends for each problem, character for character. */
  function Sentence(p: Problem): string {
    match p
    case UsernameUndefined => "The username must be defined. "
    case FirstnameUndefined => "The firstname must be defined. "
    case LastnameUndefined => "The lastname must be defined. "
    case UsernameEmpty => "The username must not be empty. "
    case FirstnameTooShort => "The firstname must contain at least 2 characters. "
    case LastnameTooShort => "The lastname must contain at least 2 characters. "
    case UsernameNotAlphaNumeric => "The username must contain only alphanumeric characters. "
    // The source's sentence for an undefined eventTypeID names the lastname.
    case EventTypeIDUndefined => "The lastname must be defined. "
    case OrganizerIDUndefined => "The organizerID must be defined. "
    case NameUndefined => "The name must be defined. "
    case PriceUndefined => "The price must be defined. "
    case DateTimeUndefined => "The datetime must be defined. "
    case LatitudeUndefined => "The locationLatitude must be defined. "
    case LongitudeUndefined => "The locationLongitude must be defined. "
    case MaxParticipantsUndefined => "The maxParticipants must be defined. "
    case NameEmpty => "The name must be not empty"
    case NameNotAlphaNumericWithSpaces => "The name must contain only alphanumeric characters and spaces. "
    case NameLength => "The name must be between 2-255 characters long. "
    case EventTypeIDNotNumber => "The eventTypeID must be valid integer. "
    case OrganizerIDNotNumber => "The organizerID must be valid integer. "
    case PriceNotPositive => "The price must be a positive real number. "
    case DateTimeNotInFuture => "The dateTime must be a valid timestamp, and be in the future. "
    case LatitudeOutOfRange => "The locationLatitude must be a valid latitude, between the values -90<=X<=+90. "
    case LongitudeOutOfRange => "The locationLongitude must be a valid longitude, between the values -180<=Y<=180. "
    case MaxParticipantsNotPositive => "The maxParticipants must be a valid non-zero positive integer. "
  }

  /** The message string: the sentences of the problems found, in the order found. */
  function Render(problems: seq<Problem>): string {
    if problems == [] then "" else Render(problems[..|problems| - 1]) + Sentence(problems[|problems| - 1])
  }

  /**
   * What the validators return, `[status, message]` or `{status, message}`; the
   * message is kept as the list of problems it spells out, `Render` gives the text.
   */
  datatype Verdict = Verdict(status: bool, problems: seq<Problem>) {
    function Message(): string { Render(problems) }
  }

  const Accept := Verdict(true, [])

  /** The sentence `p` when its test fails, nothing otherwise. */
  function When(bad: bool, p: Problem): seq<Problem> {
    if bad then [p] else []
  }

  /** One `if (bad) { status = false; message += sentence; }` step. */
  function Flag(v: Verdict, bad: bool, p: Problem): (r: Verdict)
    ensures r.status == (v.status && !bad)
    ensures r.problems == v.problems + When(bad, p)
    ensures (v.status <==> v.problems == []) ==> (r.status <==> r.problems == [])
  {
    if bad then Verdict(false, v.problems + [p]) else v
  }

  /**
   * `are_user_details_defined`: fails exactly when a field is undefined, and its
   * message is one sentence per undefined field, in username, firstname,
   * lastname order.
   */
  function AreUserDetailsDefined(username: Option<string>, firstname: Option<string>,
                                 lastname: Option<string>): (r: Verdict)
    ensures !r.status <==> username.None? || firstname.None? || lastname.None?
    ensures r.problems == When(username.None?, UsernameUndefined)
                        + When(firstname.None?, FirstnameUndefined)
                        + When(lastname.None?, LastnameUndefined)
    ensures r.status <==> r.problems == []
  {
    var v1 := Flag(Accept, username.None?, UsernameUndefined);
    assert v1.problems == When(username.None?, UsernameUndefined);
    var v2 := Flag(v1, firstname.None?, FirstnameUndefined);
    var v3 := Flag(v2, lastname.None?, LastnameUndefined);
    v3
  }

  /**
   * `are_user_details_valid`. It reads `firstname.length`, `lastname.length` and
   * `username.trim()`, so an undefined field makes it throw a TypeError: there
   * is no verdict (`None`) exactly then. Otherwise it is `CheckUserDetails`.
   */
  function AreUserDetailsValid(username: Option<string>, firstname: Option<string>,
                               lastname: Option<string>): (r: Option<Verdict>)
    ensures r.None? <==> username.None? || firstname.None? || lastname.None?
    ensures r.Some? ==>
      (r.value.status <==> 2 <= Utf16Length(firstname.value) && 2 <= Utf16Length(lastname.value)
                           && IsAlphaNumeric(username.value))
    ensures r.Some? ==> (r.value.status <==> r.value.problems == [])
  {
    if username.None? || firstname.None? || lastname.None? then None
    else Some(CheckUserDetails(username.value, firstname.value, lastname.value))
  }

  /**
   * `are_user_details_valid` on defined fields: accepts exactly when the first
   * and last names have at least two code units and the username is
   * alphanumeric after trimming. The message has one sentence per failed test,
   * in source order; an empty firstname fails two tests.
   */
  function CheckUserDetails(username: string, firstname: string, lastname: string): (r: Verdict)
    ensures r.status <==> 2 <= Utf16Length(firstname) && 2 <= Utf16Length(lastname)
                          && IsAlphaNumeric(username)
    ensures r.problems == When(username == "", UsernameEmpty)
                        + When(firstname == "", FirstnameTooShort)
                        + When(Utf16Length(firstname) < 2, FirstnameTooShort)
                        + When(Utf16Length(lastname) < 2, LastnameTooShort)
                        + When(!IsAlphaNumeric(username), UsernameNotAlphaNumeric)
    ensures r.status <==> r.problems == []
  {
    var v1 := Flag(Accept, username == "", UsernameEmpty);
    assert v1.problems == When(username == "", UsernameEmpty);
    var v2 := Flag(v1, firstname == "", FirstnameTooShort);
    var v3 := Flag(v2, Utf16Length(firstname) < 2, FirstnameTooShort);
    var v4 := Flag(v3, Utf16Length(lastname) < 2, LastnameTooShort);
    var v5 := Flag(v4, !IsAlphaNumeric(username), UsernameNotAlphaNumeric);
    v5
  }

  /** An empty firstname is reported twice: once as empty, once as too short. */
  lemma EmptyFirstnameReportedTwice()
    ensures AreUserDetailsValid(Some("ab"), Some(""), Some("cd"))
         == Some(Verdict(false, [FirstnameTooShort, FirstnameTooShort]))
  {
    var v := CheckUserDetails("ab", "", "cd");
    assert v.problems == [FirstnameTooShort, FirstnameTooShort] by {
      assert When("ab" == "", UsernameEmpty) == [];
      assert When("" == "", FirstnameTooShort) == [FirstnameTooShort];
      assert When(Utf16Length("") < 2, FirstnameTooShort) == [FirstnameTooShort];
      assert When(Utf16Length("cd") < 2, LastnameTooShort) == [] by {
        assert Utf16Length("cd") == 2;
      }
      assert When(!IsAlphaNumeric("ab"), UsernameNotAlphaNumeric) == [] by {
        TrimKeepsTrimmed("ab");
        assert IsAlphaNumeric("ab");
      }
    }
    assert !v.status;
  }

  /**
   * `is_length_valid`. An undefined name makes the source throw a TypeError when
   * it reads `name.length`, so there is no verdict (`None`). A defined name is
   * accepted exactly when it has 2 to 255 UTF-16 code units; otherwise the
   * message is the one length sentence.
   */
  function IsLengthValid(name: Option<string>): (r: Option<Verdict>)
    ensures r.None? <==> name.None?
    ensures r.Some? ==> (r.value.status <==> 2 <= Utf16Length(name.value) <= 255)
    ensures r.Some? ==> r.value.problems == When(!(2 <= Utf16Length(name.value) <= 255), NameLength)
  {
    match name
    case None => None
    case Some(n) => Some(Flag(Accept, Utf16Length(n) < 2 || Utf16Length(n) > 255, NameLength))
  }

  /**
   * The body fields `are_event_parameters_valid` reads. JSON numbers are reals:
   * nothing in the source makes maxParticipants whole.
   */
  datatype EventParameters = EventParameters(
    eventTypeID: Option<int>,
    organizerID: Option<int>,
    name: Option<string>,
    price: Option<real>,
    dateTime: Option<real>,
    locationLatitude: Option<real>,
    locationLongitude: Option<real>,
    maxParticipants: Option<real>)

  /** JavaScript's `x < bound`, `x > bound` and `x <= bound`: false when `x` is undefined. */
  predicate Below(x: Option<real>, bound: real) { x.Some? && x.value < bound }
  predicate Above(x: Option<real>, bound: real) { x.Some? && x.value > bound }
  predicate AtMost(x: Option<real>, bound: real) { x.Some? && x.value <= bound }

  /**
   * `are_event_parameters_valid`, with the clock `Date.now()` (milliseconds)
   * given as `nowMs`. An undefined name makes `isAlphaNumericWithSpaces` throw,
   * so there is no verdict. Otherwise the parameters are accepted exactly when
   * every field is defined, the name is 2 to 255 code units of letters, digits
   * and spaces, the price is positive, the date lies in the future, latitude and
   * longitude are in range and maxParticipants is positive (a fraction such as
   * 0.5 included). The message lists the failed tests group by group, in source
   * order.
   */
  function AreEventParametersValid(p: EventParameters, nowMs: int): (r: Option<Verdict>)
    ensures r.None? <==> p.name.None?
    ensures r.Some? ==>
      (r.value.status <==>
        && AllDefined(p)
        && IsAlphaNumericWithSpaces(p.name.value)
        && 2 <= Utf16Length(p.name.value) <= 255
        && p.price.value > 0.0
        && p.dateTime.value > nowMs as real / 1000.0
        && -90.0 <= p.locationLatitude.value <= 90.0
        && -180.0 <= p.locationLongitude.value <= 180.0
        && p.maxParticipants.value > 0.0)
    ensures r.Some? && r.value.status ==> p.maxParticipants.Some? && p.maxParticipants.value > 0.0
    ensures r.Some? ==> r.value.problems == DefinedProblems(p) + NameProblems(p.name.value)
                                          + IdTypeProblems(p) + RangeProblems(p, nowMs)
    ensures r.Some? ==> (r.value.status <==> r.value.problems == [])
  {
    match p.name
    case None => None
    case Some(name) =>
      var d, n, i, g := CheckDefined(p), CheckName(name), CheckIdTypes(p), CheckRanges(p, nowMs);
      Some(Verdict(d.status && n.status && i.status && g.status,
                   d.problems + n.problems + i.problems + g.problems))
  }

  predicate AllDefined(p: EventParameters) {
    && p.eventTypeID.Some? && p.organizerID.Some? && p.name.Some? && p.price.Some?
    && p.dateTime.Some? && p.locationLatitude.Some? && p.locationLongitude.Some?
    && p.maxParticipants.Some?
  }

  /** One sentence per undefined field, in source order. */
  function DefinedProblems(p: EventParameters): seq<Problem> {
    When(p.eventTypeID.None?, EventTypeIDUndefined)
    + When(p.organizerID.None?, OrganizerIDUndefined)
    + When(p.name.None?, NameUndefined)
    + When(p.price.None?, PriceUndefined)
    + When(p.dateTime.None?, DateTimeUndefined)
    + When(p.locationLatitude.None?, LatitudeUndefined)
    + When(p.locationLongitude.None?, LongitudeUndefined)
    + When(p.maxParticipants.None?, MaxParticipantsUndefined)
  }

  /**
   * The eight `== undefined` tests of `are_event_parameters_valid`, in source
   * order. Each group of tests starts from `Accept`; the status of the whole is
   * false when any group's is, and the message is the groups' messages in turn.
   */
  function CheckDefined(p: EventParameters): (r: Verdict)
    ensures r.status == AllDefined(p)
    ensures r.problems == DefinedProblems(p)
    ensures r.status <==> r.problems == []
  {
    var v1 := Flag(Accept, p.eventTypeID.None?, EventTypeIDUndefined);
    assert v1.problems == When(p.eventTypeID.None?, EventTypeIDUndefined);
    var v2 := Flag(v1, p.organizerID.None?, OrganizerIDUndefined);
    var v3 := Flag(v2, p.name.None?, NameUndefined);
    var v4 := Flag(v3, p.price.None?, PriceUndefined);
    var v5 := Flag(v4, p.dateTime.None?, DateTimeUndefined);
    var v6 := Flag(v5, p.locationLatitude.None?, LatitudeUndefined);
    var v7 := Flag(v6, p.locationLongitude.None?, LongitudeUndefined);
    var v8 := Flag(v7, p.maxParticipants.None?, MaxParticipantsUndefined);
    v8
  }

  /** The sentences for a defined event name: empty, not letters, digits and spaces, not 2 to 255 long. */
  function NameProblems(name: string): seq<Problem> {
    When(name == "", NameEmpty)
    + When(!IsAlphaNumericWithSpaces(name), NameNotAlphaNumericWithSpaces)
    + When(Utf16Length(name) < 2 || Utf16Length(name) > 255, NameLength)
  }

  /** The three tests of a defined event name. */
  function CheckName(name: string): (r: Verdict)
    ensures r.status == (IsAlphaNumericWithSpaces(name) && 2 <= Utf16Length(name) <= 255)
    ensures r.problems == NameProblems(name)
    ensures r.status <==> r.problems == []
  {
    var v1 := Flag(Accept, name == "", NameEmpty);
    assert v1.problems == When(name == "", NameEmpty);
    var v2 := Flag(v1, !IsAlphaNumericWithSpaces(name), NameNotAlphaNumericWithSpaces);
    var v3 := Flag(v2, Utf16Length(name) < 2 || Utf16Length(name) > 255, NameLength);
    v3
  }

  /** The `typeof x != "number"` sentences: a defined id is always a number here. */
  function IdTypeProblems(p: EventParameters): seq<Problem> {
    When(p.eventTypeID.None?, EventTypeIDNotNumber) + When(p.organizerID.None?, OrganizerIDNotNumber)
  }

  /** The two `typeof` tests. */
  function CheckIdTypes(p: EventParameters): (r: Verdict)
    ensures r.status == (p.eventTypeID.Some? && p.organizerID.Some?)
    ensures r.problems == IdTypeProblems(p)
    ensures r.status <==> r.problems == []
  {
    var v1 := Flag(Accept, p.eventTypeID.None?, EventTypeIDNotNumber);
    assert v1.problems == When(p.eventTypeID.None?, EventTypeIDNotNumber);
    var v2 := Flag(v1, p.organizerID.None?, OrganizerIDNotNumber);
    v2
  }

  /** No range test fails; an undefined field passes each of them, as comparisons with `undefined` are false. */
  predicate InRanges(p: EventParameters, nowMs: int) {
    && !AtMost(p.price, 0.0)
    && !AtMost(p.dateTime, nowMs as real / 1000.0)
    && !(Below(p.locationLatitude, -90.0) || Above(p.locationLatitude, 90.0))
    && !(Below(p.locationLongitude, -180.0) || Above(p.locationLongitude, 180.0))
    && !AtMost(p.maxParticipants, 0.0)
  }

  /** The sentences of the failed range tests, in source order. */
  function RangeProblems(p: EventParameters, nowMs: int): seq<Problem> {
    When(AtMost(p.price, 0.0), PriceNotPositive)
    + When(AtMost(p.dateTime, nowMs as real / 1000.0), DateTimeNotInFuture)
    + When(Below(p.locationLatitude, -90.0) || Above(p.locationLatitude, 90.0), LatitudeOutOfRange)
    + When(Below(p.locationLongitude, -180.0) || Above(p.locationLongitude, 180.0), LongitudeOutOfRange)
    + When(AtMost(p.maxParticipants, 0.0), MaxParticipantsNotPositive)
  }

  /** The price, date, latitude, longitude and maxParticipants range tests. */
  function CheckRanges(p: EventParameters, nowMs: int): (r: Verdict)
    ensures r.status == InRanges(p, nowMs)
    ensures r.problems == RangeProblems(p, nowMs)
    ensures r.status <==> r.problems == []
  {
    var v1 := Flag(Accept, AtMost(p.price, 0.0), PriceNotPositive);
    assert v1.problems == When(AtMost(p.price, 0.0), PriceNotPositive);
    var v2 := Flag(v1, AtMost(p.dateTime, nowMs as real / 1000.0), DateTimeNotInFuture);
    var v3 := Flag(v2, Below(p.locationLatitude, -90.0) || Above(p.locationLatitude, 90.0),
                   LatitudeOutOfRange);
    var v4 := Flag(v3, Below(p.locationLongitude, -180.0) || Above(p.locationLongitude, 180.0),
                   LongitudeOutOfRange);
    var v5 := Flag(v4, AtMost(p.maxParticipants, 0.0), MaxParticipantsNotPositive);
    v5
  }

  // ---------------------------------------------------------------------------
  // Row ids in request paths and queries

  function DigitValue(c: char): nat
    requires IsAsciiDigit(c)
  {
    c as int - '0' as int
  }

  /** The integer SQLite reads from a text of decimal digits. */
  function DecimalValue(s: string): nat
    requires forall i :: 0 <= i < |s| ==> IsAsciiDigit(s[i])
  {
    if s == [] then 0 else 10 * DecimalValue(s[..|s| - 1]) + DigitValue(s[|s| - 1])
  }

  /**
   * The handlers' `!isNumeric(id) || id == ""` guard, then the id SQLite compares
   * with the integer primary key: the value of the trimmed digits.
   */
  function ParseId(text: string): (r: Option<nat>)
    ensures r.Some? <==> IsNumeric(text)
  {
    if !IsNumeric(text) || text == "" then None else Some(DecimalValue(Trim(text)))
  }

  /** The decimal numeral of `n`, as a client writes an id. */
  function DecimalText(n: nat): (s: string)
    ensures |s| >= 1 && forall i :: 0 <= i < |s| ==> IsAsciiDigit(s[i])
  {
    var d := ['0' + ((n % 10) as char)];
    if n < 10 then d else DecimalText(n / 10) + d
  }

  lemma {:induction false} DecimalValueOfText(n: nat)
    ensures DecimalValue(DecimalText(n)) == n
  {
    var s := DecimalText(n);
    if n >= 10 {
      DecimalValueOfText(n / 10);
      assert s[..|s| - 1] == DecimalText(n / 10);
    }
  }

  /** An id written in decimal is read back as that id. */
  lemma ParseIdOfDecimalText(n: nat)
    ensures ParseId(DecimalText(n)) == Some(n)
  {
    var s := DecimalText(n);
    TrimKeepsTrimmed(s);
    DecimalValueOfText(n);
  }
}
