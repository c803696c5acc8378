/** The Pi sender's alert record (`model.py`): the eight-field packet, its
    validation, and the conversions to and from a Python dict. A dict value
    is one of the JSON scalars the store writes; `str`, `int` and `bool`
    are modelled on those. */
module AlertModel {
  import opened Common
  import Constants

  datatype AlertPacket = AlertPacket(
    alertId: string,
    severity: string,
    headline: string,
    expires: int,
    instructions: string,
    sourceUrl: string,
    verified: bool,
    fetchedAt: int)

  /** The `ValueError`s `validate` raises, in the order it checks. */
  datatype ValidationError =
    | InvalidSeverity(severity: string)
    | EmptyHeadline
    | EmptyInstructions
    | EmptySourceUrl
    | NonPositiveExpires
    | NonPositiveFetchedAt

  /** Python's `str.isspace` for one character. */
  predicate IsSpace(c: char)
  {
    var v := c as int;
    || (0x09 <= v <= 0x0D) || (0x1C <= v <= 0x20) || v == 0x85 || v == 0xA0
    || v == 0x1680 || (0x2000 <= v <= 0x200A) || v == 0x2028 || v == 0x2029
    || v == 0x202F || v == 0x205F || v == 0x3000
  }

  ghost predicate Blank(s: string)
  {
    forall i :: 0 <= i < |s| ==> IsSpace(s[i])
  }

  /** The two whitespace sets the sender strips: `str.strip()`'s, which
      is `str.isspace`, and the narrower one `int()` skips around a number
      (non-ASCII whitespace is read as a space, and then only the ASCII
      characters " \t\n\v\f\r" are skipped, so the separators
      U+001C..U+001F are not). */
  datatype Blanks = StrBlanks | IntBlanks

  predicate Skipped(c: char, ws: Blanks)
  {
    match ws
    case StrBlanks => IsSpace(c)
    case IntBlanks => IntSpace(c)
  }

  predicate IntSpace(c: char)
  {
    IsSpace(c) && !(0x1C <= c as int <= 0x1F)
  }

  /** Drops the leading characters of the set `ws`. */
  function StripStart(s: string, ws: Blanks): (r: string)
    ensures |r| <= |s| && r == s[|s| - |r|..]
    ensures r != [] ==> !Skipped(r[0], ws)
  {
    if s != [] && Skipped(s[0], ws) then StripStart(s[1..], ws) else s
  }

  /** Drops the trailing characters of the set `ws`. */
  function StripEnd(s: string, ws: Blanks): (r: string)
    ensures |r| <= |s| && r == s[..|r|]
    ensures r != [] ==> !Skipped(r[|r| - 1], ws)
  {
    if s != [] && Skipped(s[|s| - 1], ws) then StripEnd(s[..|s| - 1], ws) else s
  }

  /** `str.strip()` with no argument: drops leading and trailing
      whitespace. */
  function Strip(s: string): string
  {
    StripEnd(StripStart(s, StrBlanks), StrBlanks)
  }

  /** The whitespace `int()` drops around its argument. */
  function IntStrip(s: string): string
  {
    StripEnd(StripStart(s, IntBlanks), IntBlanks)
  }

  /** Everything `StripStart` drops is whitespace. */
  lemma {:induction false} StripStartDropsBlank(s: string)
    ensures Blank(s[..|s| - |StripStart(s, StrBlanks)|])
  {
    if s != [] && IsSpace(s[0]) {
      StripStartDropsBlank(s[1..]);
      var k := |s| - |StripStart(s, StrBlanks)|;
      assert s[..k] == [s[0]] + s[1..][..k - 1];
    }
  }

  /** `not s.strip()` holds exactly when every character is whitespace. */
  lemma StripEmptyIffBlank(s: string)
    ensures Strip(s) == [] <==> Blank(s)
  {
    var t := StripStart(s, StrBlanks);
    StripStartDropsBlank(s);
    if t == [] {
      assert s == s[..|s| - |t|];
    } else {
      assert t[0] == s[|s| - |t|];
      StripEndKeepsFirst(t);
    }
  }

  /** `StripEnd` never empties a string that starts with a non-space. */
  lemma {:induction false} StripEndKeepsFirst(t: string)
    requires t != [] && !IsSpace(t[0])
    ensures StripEnd(t, StrBlanks) != []
  {
    if IsSpace(t[|t| - 1]) {
      StripEndKeepsFirst(t[..|t| - 1]);
    }
  }

  /** What `validate` accepts, stated field by field. */
  ghost predicate Valid(p: AlertPacket)
  {
    && p.severity in Constants.ALLOWED_SEVERITIES
    && !Blank(p.headline)
    && !Blank(p.instructions)
    && !Blank(p.sourceUrl)
    && p.expires > 0
    && p.fetchedAt > 0
  }

  /** `validate()`: `None` when every check passes, otherwise the first
      failing check. */
  function Validate(p: AlertPacket): (r: Option<ValidationError>)
    ensures r.None? <==> Valid(p)
    ensures r == Some(InvalidSeverity(p.severity)) <==> p.severity !in Constants.ALLOWED_SEVERITIES
    ensures r == Some(EmptyHeadline) <==>
      p.severity in Constants.ALLOWED_SEVERITIES && Blank(p.headline)
    ensures r == Some(EmptyInstructions) <==>
      p.severity in Constants.ALLOWED_SEVERITIES && !Blank(p.headline) && Blank(p.instructions)
    ensures r == Some(EmptySourceUrl) <==>
      && p.severity in Constants.ALLOWED_SEVERITIES && !Blank(p.headline) && !Blank(p.instructions)
      && Blank(p.sourceUrl)
    ensures r == Some(NonPositiveExpires) <==>
      && p.severity in Constants.ALLOWED_SEVERITIES && !Blank(p.headline) && !Blank(p.instructions)
      && !Blank(p.sourceUrl) && p.expires <= 0
    ensures r == Some(NonPositiveFetchedAt) <==>
      && p.severity in Constants.ALLOWED_SEVERITIES && !Blank(p.headline) && !Blank(p.instructions)
      && !Blank(p.sourceUrl) && p.expires > 0 && p.fetchedAt <= 0
  {
    StripEmptyIffBlank(p.headline);
    StripEmptyIffBlank(p.instructions);
    StripEmptyIffBlank(p.sourceUrl);
    if p.severity !in Constants.ALLOWED_SEVERITIES then Some(InvalidSeverity(p.severity))
    else if Strip(p.headline) == [] then Some(EmptyHeadline)
    else if Strip(p.instructions) == [] then Some(EmptyInstructions)
    else if Strip(p.sourceUrl) == [] then Some(EmptySourceUrl)
    else if p.expires <= 0 then Some(NonPositiveExpires)
    else if p.fetchedAt <= 0 then Some(NonPositiveFetchedAt)
    else None
  }

  /** A dict value: the JSON scalars the store reads and writes. */
  datatype Value = Str(s: string) | Int(i: int) | Bool(b: bool) | Null

  /** The decimal digits of a natural number. */
  function Decimal(n: nat): (r: string)
    ensures r != [] && forall i :: 0 <= i < |r| ==> '0' <= r[i] <= '9'
  {
    if n < 10 then [('0' as int + n) as char]
    else Decimal(n / 10) + [('0' as int + n % 10) as char]
  }

  /** The value of a string of decimal digits. */
  function DigitsValue(ds: string): nat
    requires forall i :: 0 <= i < |ds| ==> '0' <= ds[i] <= '9'
  {
    if ds == [] then 0
    else 10 * DigitsValue(ds[..|ds| - 1]) + (ds[|ds| - 1] as int - '0' as int)
  }

  lemma {:induction false} DecimalValue(n: nat)
    ensures DigitsValue(Decimal(n)) == n
  {
    if n >= 10 {
      DecimalValue(n / 10);
      var d := Decimal(n / 10) + [('0' as int + n % 10) as char];
      assert d[..|d| - 1] == Decimal(n / 10);
    }
  }

  predicate AllDigits(s: string)
  {
    s != [] && forall i :: 0 <= i < |s| ==> '0' <= s[i] <= '9'
  }

  /** `str(v)`. */
  function PyStr(v: Value): string
  {
    match v
    case Str(s) => s
    case Int(i) => if i < 0 then "-" + Decimal(-i) else Decimal(i)
    case Bool(b) => if b then "True" else "False"
    case Null => "None"
  }

  /** Decimal digits, with single underscores allowed between two digits:
      `digit (["_"] digit)*`, the digit part of an integer literal. */
  predicate Grouped(t: string)
  {
    t != [] && '0' <= t[0] <= '9' && GroupedTail(t[1..])
  }

  /** The `(["_"] digit)*` part of a grouped literal. */
  predicate GroupedTail(t: string)
    decreases |t|
  {
    || t == []
    || ('0' <= t[0] <= '9' && GroupedTail(t[1..]))
    || (|t| >= 2 && t[0] == '_' && '0' <= t[1] <= '9' && GroupedTail(t[2..]))
  }

  /** A grouped literal holds only digits and underscores. */
  lemma {:induction false} GroupedTailChars(t: string)
    requires GroupedTail(t)
    ensures forall i :: 0 <= i < |t| ==> ('0' <= t[i] <= '9') || t[i] == '_'
    decreases |t|
  {
    if t != [] {
      if '0' <= t[0] <= '9' && GroupedTail(t[1..]) {
        GroupedTailChars(t[1..]);
        assert forall i :: 1 <= i < |t| ==> t[i] == t[1..][i - 1];
      } else {
        GroupedTailChars(t[2..]);
        assert forall i :: 2 <= i < |t| ==> t[i] == t[2..][i - 2];
      }
    }
  }

  /** Digits alone form a grouped tail. */
  lemma {:induction false} DigitsGroupedTail(t: string)
    requires forall i :: 0 <= i < |t| ==> '0' <= t[i] <= '9'
    ensures GroupedTail(t)
    decreases |t|
  {
    if t != [] {
      DigitsGroupedTail(t[1..]);
    }
  }

  /** The digits of a grouped literal with its underscores removed. */
  function Ungrouped(t: string): string
  {
    if t == [] then []
    else Ungrouped(t[..|t| - 1]) + (if t[|t| - 1] == '_' then [] else [t[|t| - 1]])
  }

  /** Removing the underscores from digits and underscores leaves digits. */
  lemma {:induction false} UngroupedDigits(t: string)
    requires forall i :: 0 <= i < |t| ==> ('0' <= t[i] <= '9') || t[i] == '_'
    ensures forall i :: 0 <= i < |Ungrouped(t)| ==> '0' <= Ungrouped(t)[i] <= '9'
  {
    if t != [] {
      UngroupedDigits(t[..|t| - 1]);
    }
  }

  /** A string without underscores is left as it is. */
  lemma {:induction false} UngroupedPlain(t: string)
    requires forall i :: 0 <= i < |t| ==> '0' <= t[i] <= '9'
    ensures Ungrouped(t) == t
  {
    if t != [] {
      UngroupedPlain(t[..|t| - 1]);
    }
  }

  /** The value of a grouped digit string. */
  function GroupedValue(t: string): nat
    requires Grouped(t)
  {
    GroupedTailChars(t[1..]);
    assert forall i :: 1 <= i < |t| ==> t[i] == t[1..][i - 1];
    UngroupedDigits(t);
    DigitsValue(Ungrouped(t))
  }

  /** A digit string with no underscores is grouped, with its own value. */
  lemma AllDigitsGrouped(d: string)
    requires AllDigits(d)
    ensures Grouped(d) && GroupedValue(d) == DigitsValue(d)
  {
    DigitsGroupedTail(d[1..]);
    UngroupedPlain(d);
  }

  /** An optional sign followed by a grouped digit string. */
  function SignedDigits(t: string): (r: Result<int, string>)
    ensures AllDigits(t) ==> r == Success(DigitsValue(t))
    ensures r.Success? <==>
      Grouped(t) || (|t| >= 2 && (t[0] == '+' || t[0] == '-') && Grouped(t[1..]))
  {
    if AllDigits(t) then AllDigitsGrouped(t); Success(DigitsValue(t))
    else if Grouped(t) then Success(GroupedValue(t))
    else if |t| >= 2 && t[0] == '+' && Grouped(t[1..]) then Success(GroupedValue(t[1..]))
    else if |t| >= 2 && t[0] == '-' && Grouped(t[1..]) then Success(-(GroupedValue(t[1..]) as int))
    else Failure("invalid literal for int() with base 10")
  }

  /** `int(s)` on a string: surrounding whitespace as `IntSpace` has it,
      an optional sign, then ASCII decimal digits with single underscores
      between digits; anything else raises `ValueError`. */
  function ParseInt(s: string): Result<int, string>
  {
    SignedDigits(IntStrip(s))
  }

  /** `int(v)`; `int(None)` raises `TypeError`. */
  function PyInt(v: Value): (r: Result<int, string>)
    ensures v.Int? ==> r == Success(v.i)
    ensures v.Bool? ==> r == Success(if v.b then 1 else 0)
    ensures v.Null? ==> r.Failure?
  {
    match v
    case Str(s) => ParseInt(s)
    case Int(i) => Success(i)
    case Bool(b) => Success(if b then 1 else 0)
    case Null => Failure("int() argument must be a string, a bytes-like object or a real number, not 'NoneType'")
  }

  /** `bool(v)`: Python truthiness. */
  function PyBool(v: Value): bool
  {
    match v
    case Str(s) => s != []
    case Int(i) => i != 0
    case Bool(b) => b
    case Null => false
  }

  /** A string that neither starts nor ends with whitespace is its own
      `strip()`. */
  lemma StripTrimmed(s: string)
    requires s != [] && !IsSpace(s[0]) && !IsSpace(s[|s| - 1])
    ensures Strip(s) == s
  {
  }

  /** A string that neither starts nor ends with whitespace `int()` skips
      is passed on unchanged. */
  lemma IntStripTrimmed(s: string)
    requires s != [] && !IntSpace(s[0]) && !IntSpace(s[|s| - 1])
    ensures IntStrip(s) == s
  {
  }

  /** A digit string parses as its value. */
  lemma ParseDigits(d: string)
    requires AllDigits(d)
    ensures ParseInt(d) == Success(DigitsValue(d))
  {
    assert !IntSpace(d[0]) && !IntSpace(d[|d| - 1]);
    IntStripTrimmed(d);
  }

  /** With a leading '-', a digit string parses as the negated value. */
  lemma ParseNegDigits(d: string)
    requires AllDigits(d)
    ensures ParseInt("-" + d) == Success(-(DigitsValue(d) as int))
  {
    NegTrimmed(d);
    NegDigitsValue(d);
  }

  /** The sign-and-digits reading of a '-' followed by digits. */
  lemma NegDigitsValue(d: string)
    requires AllDigits(d)
    ensures SignedDigits("-" + d) == Success(-(DigitsValue(d) as int))
  {
    var s := "-" + d;
    assert s[1..] == d;
    AllDigitsGrouped(d);
    SignedNegative(s);
  }

  /** `int()` strips nothing from a '-' followed by digits. */
  lemma NegTrimmed(d: string)
    requires AllDigits(d)
    ensures IntStrip("-" + d) == "-" + d
  {
    var s := "-" + d;
    assert s[0] == '-' && s[|s| - 1] == d[|d| - 1];
    IntStripTrimmed(s);
  }

  /** A '-' before a grouped digit string negates its value. */
  lemma SignedNegative(t: string)
    requires |t| >= 2 && t[0] == '-' && Grouped(t[1..])
    ensures SignedDigits(t) == Success(-(GroupedValue(t[1..]) as int))
  {
    assert !Grouped(t);
  }

  /** A grouped literal with no sign parses as its value. */
  lemma ParseGrouped(t: string)
    requires Grouped(t)
    ensures ParseInt(t) == Success(GroupedValue(t))
  {
    assert !IntSpace(t[0]);
    GroupedTailChars(t[1..]);
    if |t| > 1 {
      assert t[|t| - 1] == t[1..][|t| - 2];
    }
    IntStripTrimmed(t);
    if AllDigits(t) {
      AllDigitsGrouped(t);
    }
  }

  /** The digits "1000" read as one thousand. */
  lemma ThousandValue()
    ensures DigitsValue("1000") == 1000
  {
    assert DigitsValue("1") == 1 by { assert "1"[..0] == []; }
    assert DigitsValue("10") == 10 by { assert "10"[..1] == "1"; }
    assert DigitsValue("100") == 100 by { assert "100"[..2] == "10"; }
    assert "1000"[..3] == "100";
  }

  /** "1_000" is a grouped literal whose digits are "1000". */
  lemma GroupedThousand()
    ensures Grouped("1_000") && Ungrouped("1_000") == "1000"
  {
    assert Grouped("1_000");
    assert Ungrouped("1") == "1" by { assert "1"[..0] == []; }
    assert Ungrouped("1_") == "1" by { assert "1_"[..1] == "1"; }
    assert Ungrouped("1_0") == "10" by { assert "1_0"[..2] == "1_"; }
    assert Ungrouped("1_00") == "100" by { assert "1_00"[..3] == "1_0"; }
    assert "1_000"[..4] == "1_00";
  }

  /** Underscores between digits are accepted and ignored. */
  lemma ParseUnderscored()
    ensures ParseInt("1_000") == Success(1000)
  {
    GroupedThousand();
    ParseGrouped("1_000");
    ThousandValue();
  }

  /** A doubled underscore is rejected. */
  lemma ParseDoubleUnderscore()
    ensures ParseInt("1__000").Failure?
  {
    var u := "1__000";
    assert !Grouped(u);
    assert !IntSpace(u[0]) && !IntSpace(u[|u| - 1]);
    IntStripTrimmed(u);
  }

  /** The information separator U+001C is whitespace to `str.strip()` but
      not to `int()`, so `int("\x1c5")` raises where `int("\x1c5".strip())`
      would not. */
  lemma ParseRejectsSeparator()
    ensures Strip("\U{1C}5") == "5"
    ensures ParseInt("\U{1C}5").Failure?
  {
    SeparatorStripped();
    SeparatorKept();
    SeparatorNotGrouped();
  }

  /** U+001C is stripped by `str.strip()`. */
  lemma SeparatorStripped()
    ensures Strip("\U{1C}5") == "5"
  {
    StripsOneLeading('\U{1C}', "5", StrBlanks);
    assert ['\U{1C}'] + "5" == "\U{1C}5";
  }

  /** U+001C is left in place by `int()`. */
  lemma SeparatorKept()
    ensures IntStrip("\U{1C}5") == "\U{1C}5"
  {
    var u := "\U{1C}5";
    assert !IntSpace(u[0]) && !IntSpace(u[1]);
    IntStripTrimmed(u);
  }

  /** A string starting with U+001C is no integer literal. */
  lemma SeparatorNotGrouped()
    ensures SignedDigits("\U{1C}5").Failure?
  {
    var u := "\U{1C}5";
    assert !Grouped(u);
  }

  /** A no-break space (U+00A0) before a number is skipped by `int()`. */
  lemma ParseSkipsNoBreakSpace()
    ensures ParseInt("\U{A0}7") == Success(7)
  {
    NoBreakSpaceStripped();
    SingleDigit();
  }

  /** U+00A0 is stripped by `int()`. */
  lemma NoBreakSpaceStripped()
    ensures IntStrip("\U{A0}7") == "7"
  {
    StripsOneLeading('\U{A0}', "7", IntBlanks);
    assert ['\U{A0}'] + "7" == "\U{A0}7";
  }

  /** One skipped character before a string with no skipped character at
      either end is all that stripping removes. */
  lemma StripsOneLeading(c: char, t: string, ws: Blanks)
    requires Skipped(c, ws)
    requires t != [] && !Skipped(t[0], ws) && !Skipped(t[|t| - 1], ws)
    ensures StripEnd(StripStart([c] + t, ws), ws) == t
  {
    assert ([c] + t)[1..] == t;
  }

  /** The literal "7" reads as seven. */
  lemma SingleDigit()
    ensures SignedDigits("7") == Success(7)
  {
    assert AllDigits("7");
    assert DigitsValue("7") == 7 by { assert "7"[..0] == []; }
  }

  /** `int(str(i)) == i`: the two conversions the dict round trip can meet
      on an integer field are inverse. */
  lemma IntStrRoundTrip(i: int)
    ensures PyInt(Str(PyStr(Int(i)))) == Success(i)
  {
    var n: nat := if i < 0 then -i else i;
    DecimalValue(n);
    if i < 0 {
      ParseNegDigits(Decimal(n));
    } else {
      ParseDigits(Decimal(n));
    }
  }

  /** The eight keys `to_dict` writes and `from_dict` requires. Keys other
      than these are ignored by `from_dict` and are not modelled. */
  datatype Field = AlertId | Severity | Headline | Expires | Instructions | SourceUrl | Verified | FetchedAt

  function FieldName(f: Field): string
  {
    match f
    case AlertId => "alertId"
    case Severity => "severity"
    case Headline => "headline"
    case Expires => "expires"
    case Instructions => "instructions"
    case SourceUrl => "sourceUrl"
    case Verified => "verified"
    case FetchedAt => "fetchedAt"
  }

  /** The required fields in the order of their names. */
  const REQUIRED_SORTED: seq<Field> :=
    [AlertId, Expires, FetchedAt, Headline, Instructions, Severity, SourceUrl, Verified]

  /** Code-point lexicographic order, Python's `<` on `str`. */
  predicate StrLess(a: string, b: string)
  {
    if a == [] then b != []
    else b != [] && (a[0] < b[0] || (a[0] == b[0] && StrLess(a[1..], b[1..])))
  }

  ghost predicate SortedNames(fields: seq<Field>)
  {
    forall i, j :: 0 <= i < j < |fields| ==> StrLess(FieldName(fields[i]), FieldName(fields[j]))
  }

  /** Strings that differ in their first character are ordered by it. */
  lemma StrLessFirst(a: string, b: string)
    requires a != [] && b != [] && a[0] < b[0]
    ensures StrLess(a, b)
  {
  }

  lemma {:induction false} StrLessTrans(a: string, b: string, c: string)
    requires StrLess(a, b) && StrLess(b, c)
    ensures StrLess(a, c)
    decreases |a|
  {
    if a != [] && a[0] == b[0] && b[0] == c[0] {
      StrLessTrans(a[1..], b[1..], c[1..]);
    }
  }

  /** Names that increase from each field to the next are sorted. */
  lemma {:induction false} ChainSorted(fields: seq<Field>)
    requires forall k :: 0 <= k < |fields| - 1 ==> StrLess(FieldName(fields[k]), FieldName(fields[k + 1]))
    ensures SortedNames(fields)
    decreases |fields|
  {
    if |fields| > 1 {
      var rest := fields[1..];
      forall k | 0 <= k < |rest| - 1
        ensures StrLess(FieldName(rest[k]), FieldName(rest[k + 1]))
      {
        assert rest[k] == fields[k + 1] && rest[k + 1] == fields[k + 2];
      }
      ChainSorted(rest);
      forall i, j | 0 <= i < j < |fields|
        ensures StrLess(FieldName(fields[i]), FieldName(fields[j]))
      {
        if i == 0 && j > 1 {
          assert rest[0] == fields[1] && rest[j - 1] == fields[j];
          StrLessTrans(FieldName(fields[0]), FieldName(fields[1]), FieldName(fields[j]));
        } else if i > 0 {
          assert rest[i - 1] == fields[i] && rest[j - 1] == fields[j];
        }
      }
    }
  }

  lemma RequiredSorted()
    ensures SortedNames(REQUIRED_SORTED)
  {
    StrLessFirst("alertId", "expires");
    StrLessFirst("expires", "fetchedAt");
    StrLessFirst("fetchedAt", "headline");
    StrLessFirst("headline", "instructions");
    StrLessFirst("instructions", "severity");
    StrLessFirst("everity", "ourceUrl");
    assert StrLess("severity", "sourceUrl") by {
      assert "severity"[1..] == "everity" && "sourceUrl"[1..] == "ourceUrl";
    }
    StrLessFirst("sourceUrl", "verified");
    ChainSorted(REQUIRED_SORTED);
  }

  /** The fields of `fields` absent from `keys`, in the order of `fields`. */
  function Missing(fields: seq<Field>, keys: set<Field>): (m: seq<Field>)
    ensures forall f :: f in m <==> f in fields && f !in keys
    ensures SortedNames(fields) ==> SortedNames(m)
  {
    if fields == [] then []
    else
      var rest := Missing(fields[1..], keys);
      if fields[0] in keys then rest
      else
        assert SortedNames(fields) ==> forall f :: f in rest ==> StrLess(FieldName(fields[0]), FieldName(f)) by {
          if SortedNames(fields) {
            forall f | f in rest ensures StrLess(FieldName(fields[0]), FieldName(f)) {
              var j :| 1 <= j < |fields| && fields[j] == f by {
                assert f in fields[1..];
              }
            }
          }
        }
        [fields[0]] + rest
  }

  /** The eight constructors are all the fields there are. */
  const ALL_FIELDS: set<Field> :=
    {AlertId, Severity, Headline, Expires, Instructions, SourceUrl, Verified, FetchedAt}

  lemma FieldCases()
    ensures forall f: Field :: f in ALL_FIELDS && f in REQUIRED_SORTED
  {
    forall f: Field
      ensures f in ALL_FIELDS && f in REQUIRED_SORTED
    {
      match f
      case AlertId => assert REQUIRED_SORTED[0] == f;
      case Expires => assert REQUIRED_SORTED[1] == f;
      case FetchedAt => assert REQUIRED_SORTED[2] == f;
      case Headline => assert REQUIRED_SORTED[3] == f;
      case Instructions => assert REQUIRED_SORTED[4] == f;
      case Severity => assert REQUIRED_SORTED[5] == f;
      case SourceUrl => assert REQUIRED_SORTED[6] == f;
      case Verified => assert REQUIRED_SORTED[7] == f;
    }
  }

  /** `to_dict()`, `dataclasses.asdict`: every field under its own key. */
  function ToDict(p: AlertPacket): (d: map<Field, Value>)
    ensures forall f: Field :: f in d
  {
    FieldCases();
    var d := map[AlertId := Str(p.alertId), Severity := Str(p.severity), Headline := Str(p.headline),
        Expires := Int(p.expires), Instructions := Str(p.instructions),
        SourceUrl := Str(p.sourceUrl), Verified := Bool(p.verified), FetchedAt := Int(p.fetchedAt)];
    assert d.Keys == ALL_FIELDS;
    d
  }

  datatype FromDictError =
    | MissingFields(fields: seq<Field>)
    | NotAnInteger(key: string, reason: string)
    | Invalid(error: ValidationError)

  /** The conversions of `from_dict` once every key is present: `str`,
      `int` and `bool` in declaration order, the first failing `int`
      raising. */
  function Convert(payload: map<Field, Value>): (r: Result<AlertPacket, FromDictError>)
    requires forall f: Field :: f in payload
    ensures r.Failure? ==> r.error.NotAnInteger?
  {
    var expires := PyInt(payload[Expires]);
    if expires.Failure? then Failure(NotAnInteger("expires", expires.error))
    else
      var fetchedAt := PyInt(payload[FetchedAt]);
      if fetchedAt.Failure? then Failure(NotAnInteger("fetchedAt", fetchedAt.error))
      else
        Success(AlertPacket(
          PyStr(payload[AlertId]), PyStr(payload[Severity]), PyStr(payload[Headline]),
          expires.value, PyStr(payload[Instructions]), PyStr(payload[SourceUrl]),
          PyBool(payload[Verified]), fetchedAt.value))
  }

  /** `from_dict(payload)`: reports every missing required key, in the
      sorted order of the key names; then converts the fields and validates the packet. */
  function FromDict(payload: map<Field, Value>): (r: Result<AlertPacket, FromDictError>)
    ensures r.Failure? && r.error.MissingFields? <==> exists f: Field :: f !in payload
    ensures r.Failure? && r.error.MissingFields? ==>
      && (forall f :: f in r.error.fields <==> f !in payload)
      && SortedNames(r.error.fields)
    ensures r.Success? ==> Valid(r.value)
  {
    var missing := Missing(REQUIRED_SORTED, payload.Keys);
    RequiredSorted();
    FieldCases();
    if missing != [] then
      assert missing[0] in missing;
      Failure(MissingFields(missing))
    else
      var converted := Convert(payload);
      if converted.Failure? then converted
      else
        var check := Validate(converted.value);
        if check.Some? then Failure(Invalid(check.value)) else converted
  }

  /** `from_dict(to_dict(p))` gives `p` back exactly when `p` is valid, and
      otherwise raises the error `validate` reports for `p`. */
  lemma FromDictToDict(p: AlertPacket)
    ensures Valid(p) ==> FromDict(ToDict(p)) == Success(p)
    ensures !Valid(p) ==> FromDict(ToDict(p)) == Failure(Invalid(Validate(p).value))
  {
    var d := ToDict(p);
    ToDictLookups(p);
    assert Convert(d) == Success(p);
    var missing := Missing(REQUIRED_SORTED, d.Keys);
  }

  /** What `to_dict` stores under each key. */
  lemma ToDictLookups(p: AlertPacket)
    ensures var d := ToDict(p);
      && d[AlertId] == Str(p.alertId) && d[Severity] == Str(p.severity)
      && d[Headline] == Str(p.headline) && d[Expires] == Int(p.expires)
      && d[Instructions] == Str(p.instructions) && d[SourceUrl] == Str(p.sourceUrl)
      && d[Verified] == Bool(p.verified) && d[FetchedAt] == Int(p.fetchedAt)
  {
  }

  /** `generate_alert_id`: the first eight characters of the hex SHA-1
      digest of the headline and expiry (the digest itself is an input). */
  function GenerateAlertId(hexDigest: string): (id: string)
    ensures |id| == Min(8, |hexDigest|)
    ensures id <= hexDigest
  {
    hexDigest[..Min(8, |hexDigest|)]
  }

  /** `build_alert(...)`: a missing `fetched_at` becomes the current time
      `now`; a missing or empty `alert_id` becomes the generated id; the
      packet is then validated. */
  function BuildAlert(headline: string, severity: string, expires: int, instructions: string,
                      sourceUrl: string, verified: bool, alertId: Option<string>,
                      fetchedAt: Option<int>, now: int, hexDigest: string): (r: Result<AlertPacket, ValidationError>)
    ensures r.Success? ==> Valid(r.value)
    ensures r.Success? ==>
      && r.value.headline == headline && r.value.severity == severity
      && r.value.expires == expires && r.value.instructions == instructions
      && r.value.sourceUrl == sourceUrl && r.value.verified == verified
    ensures r.Success? && alertId.Some? && alertId.value != [] ==> r.value.alertId == alertId.value
    ensures r.Success? && (alertId.None? || alertId == Some([])) ==> r.value.alertId == GenerateAlertId(hexDigest)
    ensures r.Success? ==> r.value.fetchedAt == (if fetchedAt.Some? then fetchedAt.value else now)
    ensures r.Failure? <==> !Valid(AlertPacket(
      if alertId.Some? && alertId.value != [] then alertId.value else GenerateAlertId(hexDigest),
      severity, headline, expires, instructions, sourceUrl, verified,
      if fetchedAt.Some? then fetchedAt.value else now))
  {
    var fetched := if fetchedAt.Some? then fetchedAt.value else now;
    var aid := if alertId.Some? && alertId.value != [] then alertId.value else GenerateAlertId(hexDigest);
    var packet := AlertPacket(aid, severity, headline, expires, instructions, sourceUrl, verified, fetched);
    var check := Validate(packet);
    if check.Some? then Failure(check.value) else Success(packet)
  }

  /** The unit tests of `build_alert`: severity "Critical" is rejected, and
      a generated id from a 40-character digest has eight characters. */
  lemma BuildAlertTests(hexDigest: string, now: int)
    requires |hexDigest| == 40
    ensures BuildAlert("Bad Severity", "Critical", 1735689600, "Do something", "https://example.com",
                       false, None, Some(now), now, hexDigest).Failure?
    ensures var r := BuildAlert("Valid Alert", "Severe", 1735689600, "Take shelter", "https://example.com",
                                true, None, Some(1735680000), now, hexDigest);
      r.Success? && |r.value.alertId| == 8
  {
    assert "Critical" !in Constants.ALLOWED_SEVERITIES by {
      assert "Critical"[0] == 'C';
    }
    assert "Severe" in Constants.ALLOWED_SEVERITIES by {
      assert Constants.ALLOWED_SEVERITIES[1] == "Severe";
    }
    assert !Blank("Valid Alert") by { assert !IsSpace("Valid Alert"[0]); }
    assert !Blank("Take shelter") by { assert !IsSpace("Take shelter"[0]); }
    assert !Blank("https://example.com") by { assert !IsSpace("https://example.com"[0]); }
  }
}
