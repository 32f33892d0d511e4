/**
 * The converter for boolean columns. A column's format "T,F" names the token
 * written for true (before the first comma) and for false (everything after
 * it); without a format the tokens are "true" and "false". Three flag bits
 * choose strict parsing, case-sensitive matching and quoted output.
 */
module BooleanConverter {
  import opened Wrappers
  import opened JavaString
  import opened Processor

  /** Flag: an unrecognised token records a parse error instead of reading as false. */
  const ParseErrorOnInvalidValue: bv64 := 1 << 1
  /** Flag: tokens are compared case-sensitively (the default is case-insensitive). */
  const CaseSensitive: bv64 := 1 << 2
  /** Flag: the written value is surrounded by quotes. */
  const NeedsQuotes: bv64 := 1 << 3

  const DefaultTrueString: string := "true"
  const DefaultFalseString: string := "false"

  /** The message of the IllegalArgumentException thrown for a malformed format. */
  const InvalidFormatMessage: string := "Invalid boolean format should in the form of T,F: "

  /** The immutable per-column configuration built by Configure. */
  datatype ConfigInfo = ConfigInfo(
    trueString: string,
    falseString: string,
    parseErrorOnInvalid: bool,
    caseSensitive: bool,
    needsQuotes: bool)

  /** What every configuration built by Configure satisfies: both tokens are non-empty. */
  predicate WellFormed(config: ConfigInfo)
  {
    config.trueString != [] && config.falseString != []
  }

  /** Bit number `k` of a flag word, read by shifting (an independent reading of the masks above). */
  predicate FlagBit(flags: bv64, k: nat)
    requires k < 64
  {
    (flags >> k) & 1 == 1
  }

  /** A flag word with exactly the three converter bits chosen. */
  function Flags(parseErrorOnInvalid: bool, caseSensitive: bool, needsQuotes: bool): (r: bv64)
    ensures r & !(ParseErrorOnInvalidValue | CaseSensitive | NeedsQuotes) == 0
  {
    (if parseErrorOnInvalid then ParseErrorOnInvalidValue else 0)
    | (if caseSensitive then CaseSensitive else 0)
    | (if needsQuotes then NeedsQuotes else 0)
  }

  /**
   * A format string is rejected exactly when it has no comma, starts with a
   * comma (empty true token), or its first comma is its last character
   * (empty false token).
   */
  predicate MalformedFormat(format: string)
  {
    ',' !in format
    || format[0] == ','
    || (format[|format| - 1] == ',' && ',' !in format[..|format| - 1])
  }

  /**
   * configure: builds the configuration from an optional format and the flag
   * word, or fails (Java's IllegalArgumentException) on a malformed format.
   */
  function Configure(format: Option<string>, flags: bv64): (r: Result<ConfigInfo, string>)
    ensures format.None? ==>
      r.Success? && r.value.trueString == DefaultTrueString && r.value.falseString == DefaultFalseString
    ensures format.Some? ==> (r.Failure? <==> MalformedFormat(format.value))
    ensures format.Some? && r.Success? ==>
      format.value == r.value.trueString + [','] + r.value.falseString && ',' !in r.value.trueString
    ensures r.Success? ==> WellFormed(r.value)
    ensures r.Success? ==>
      && r.value.parseErrorOnInvalid == FlagBit(flags, 1)
      && r.value.caseSensitive == FlagBit(flags, 2)
      && r.value.needsQuotes == FlagBit(flags, 3)
    ensures r.Failure? ==> format.Some? && r.error == InvalidFormatMessage + format.value
  {
    var tokens: Result<(string, string), string> :=
      match format
      case None => Success((DefaultTrueString, DefaultFalseString))
      case Some(f) =>
        var parts := SplitOnce(f, ',');
        if |parts| != 2 then Failure(InvalidFormatMessage + f)
        else if |parts[0]| == 0 then Failure(InvalidFormatMessage + f)
        else if |parts[1]| == 0 then Failure(InvalidFormatMessage + f)
        else
          assert f[..|parts[0]|] == parts[0] && f[|parts[0]|] == ',';
          Success((parts[0], parts[1]));
    match tokens
    case Failure(e) => Failure(e)
    case Success((trueString, falseString)) =>
      Success(ConfigInfo(
        trueString,
        falseString,
        (flags & ParseErrorOnInvalidValue) != 0,
        (flags & CaseSensitive) != 0,
        (flags & NeedsQuotes) != 0))
  }

  /** Any non-empty comma-free true token and non-empty false token form an accepted format. */
  lemma ConfigureAccepts(trueString: string, falseString: string, flags: bv64)
    requires trueString != [] && falseString != [] && ',' !in trueString
    ensures Configure(Some(trueString + [','] + falseString), flags)
      == Success(ConfigInfo(trueString, falseString, FlagBit(flags, 1), FlagBit(flags, 2), FlagBit(flags, 3)))
  {
    SplitOnceOfJoin(trueString, falseString, ',');
  }

  /** Encoding three choices as a flag word, plus any unrelated bits, decodes back to those choices. */
  lemma FlagsRoundTrip(format: Option<string>, parseErrorOnInvalid: bool, caseSensitive: bool,
                       needsQuotes: bool, other: bv64)
    requires other & (ParseErrorOnInvalidValue | CaseSensitive | NeedsQuotes) == 0
    ensures var r := Configure(format, Flags(parseErrorOnInvalid, caseSensitive, needsQuotes) | other);
      r.Success? ==>
        && r.value.parseErrorOnInvalid == parseErrorOnInvalid
        && r.value.caseSensitive == caseSensitive
        && r.value.needsQuotes == needsQuotes
  {
  }

  /** Only the three converter bits of the flag word matter. */
  lemma OtherFlagBitsIgnored(format: Option<string>, flags: bv64, flags': bv64)
    requires flags & (ParseErrorOnInvalidValue | CaseSensitive | NeedsQuotes)
      == flags' & (ParseErrorOnInvalidValue | CaseSensitive | NeedsQuotes)
    ensures Configure(format, flags) == Configure(format, flags')
  {
  }

  /** isNeedsQuotes: whether output in this column is quoted. */
  function IsNeedsQuotes(config: ConfigInfo): (r: bool)
    ensures r <==> config.needsQuotes
  {
    config.needsQuotes
  }

  /** Quoting follows the NeedsQuotes bit of the flags the column was configured with. */
  lemma NeedsQuotesFollowsFlag(format: Option<string>, flags: bv64)
    requires Configure(format, flags).Success?
    ensures IsNeedsQuotes(Configure(format, flags).value) == FlagBit(flags, 3)
  {
  }

  /** isAlwaysTrimInput: boolean tokens are never trimmed before they are parsed. */
  function IsAlwaysTrimInput(): (r: bool)
    ensures !r
  {
    false
  }

  /** javaToString: renders an optional boolean as the configured token; null stays null. */
  function JavaToString(columnInfo: ColumnInfo<ConfigInfo>, value: Option<bool>): (r: Option<string>)
    ensures r.None? <==> value.None?
    ensures value == Some(true) ==> r == Some(columnInfo.configInfo.trueString)
    ensures value == Some(false) ==> r == Some(columnInfo.configInfo.falseString)
    ensures WellFormed(columnInfo.configInfo) && r.Some? ==> r.value != []
  {
    match value
    case None => None
    case Some(b) =>
      var configInfo := columnInfo.configInfo;
      if b then Some(configInfo.trueString) else Some(configInfo.falseString)
  }

  /**
   * isEquals: compares a token with a configured token, exactly when the
   * column is case-sensitive and up to (ASCII) case otherwise.
   */
  function IsEquals(config: ConfigInfo, value: string, formatValue: string): (r: bool)
    ensures value == formatValue ==> r
    ensures r ==> |value| == |formatValue|
    ensures config.caseSensitive ==> (r <==> value == formatValue)
    ensures !config.caseSensitive ==>
      (r <==> |value| == |formatValue|
              && forall i :: 0 <= i < |value| ==> ToLowerCase(value[i]) == ToLowerCase(formatValue[i]))
  {
    if config.caseSensitive then
      value == formatValue
    else
      EqualsIgnoreCaseIsLowerEquality(value, formatValue);
      EqualsIgnoreCase(value, formatValue)
  }

  /**
   * For a column configured from a format, the token written for true, a
   * comma and the token written for false spell the format again.
   */
  lemma WrittenTokensRebuildFormat(format: string, flags: bv64)
    requires Configure(Some(format), flags).Success?
    ensures var columnInfo := ColumnInfo(Configure(Some(format), flags).value);
      JavaToString(columnInfo, Some(true)).value + [','] + JavaToString(columnInfo, Some(false)).value == format
  {
  }

  /** The comparison does not depend on which side is the configured token. */
  lemma IsEqualsSymmetric(config: ConfigInfo, a: string, b: string)
    ensures IsEquals(config, a, b) <==> IsEquals(config, b, a)
  {
    if !config.caseSensitive {
      EqualsIgnoreCaseSymmetric(a, b);
    }
  }

  /** The comparison is transitive in both modes. */
  lemma IsEqualsTransitive(config: ConfigInfo, a: string, b: string, c: string)
    requires IsEquals(config, a, b) && IsEquals(config, b, c)
    ensures IsEquals(config, a, c)
  {
    if !config.caseSensitive {
      EqualsIgnoreCaseTransitive(a, b, c);
    }
  }

  /**
   * What stringToJava decides for a token: the value it returns, and whether
   * it records an INVALID_FORMAT error.
   */
  datatype Reading = Reading(value: Option<bool>, invalid: bool)

  /** The decision stringToJava makes: empty is null, the true token wins, then the false token. */
  function Parse(config: ConfigInfo, value: string): (r: Reading)
    ensures r.invalid ==> config.parseErrorOnInvalid && value != [] && r.value.None?
    ensures r.value.None? <==> value == [] || r.invalid
    ensures r.value == Some(true) <==> value != [] && IsEquals(config, value, config.trueString)
    ensures r.value == Some(false) ==>
      IsEquals(config, value, config.falseString) || !config.parseErrorOnInvalid
  {
    if value == [] then Reading(None, false)
    else if IsEquals(config, value, config.trueString) then Reading(Some(true), false)
    else if IsEquals(config, value, config.falseString) then Reading(Some(false), false)
    else if config.parseErrorOnInvalid then Reading(None, true)
    else Reading(Some(false), false)
  }

  /** An empty token reads as null with no error, whatever the configuration. */
  lemma EmptyTokenIsNull(config: ConfigInfo)
    ensures Parse(config, []) == Reading(None, false)
  {
  }

  /** A non-empty token matching only the false token reads as false. */
  lemma FalseTokenReadsFalse(config: ConfigInfo, value: string)
    requires value != [] && IsEquals(config, value, config.falseString)
    requires !IsEquals(config, value, config.trueString)
    ensures Parse(config, value) == Reading(Some(false), false)
  {
  }

  /** An unmatched non-empty token is an error in strict mode and false otherwise. */
  lemma UnmatchedToken(config: ConfigInfo, value: string)
    requires value != []
    requires !IsEquals(config, value, config.trueString) && !IsEquals(config, value, config.falseString)
    ensures config.parseErrorOnInvalid ==> Parse(config, value) == Reading(None, true)
    ensures !config.parseErrorOnInvalid ==> Parse(config, value) == Reading(Some(false), false)
  {
  }

  /** Without CaseSensitive, any ASCII case variant of the true token reads as true. */
  lemma CaseVariantOfTrueReadsTrue(config: ConfigInfo, value: string)
    requires !config.caseSensitive && config.trueString != []
    requires |value| == |config.trueString|
    requires forall i :: 0 <= i < |value| ==> ToLowerCase(value[i]) == ToLowerCase(config.trueString[i])
    ensures Parse(config, value) == Reading(Some(true), false)
  {
  }

  /**
   * Round trip: a well-formed configuration whose two tokens differ under its
   * own comparison reads back every boolean it writes, with no error.
   */
  lemma RoundTrip(columnInfo: ColumnInfo<ConfigInfo>, b: bool)
    requires WellFormed(columnInfo.configInfo)
    requires !IsEquals(columnInfo.configInfo, columnInfo.configInfo.falseString, columnInfo.configInfo.trueString)
    ensures JavaToString(columnInfo, Some(b)).Some?
    ensures Parse(columnInfo.configInfo, JavaToString(columnInfo, Some(b)).value) == Reading(Some(b), false)
  {
  }

  /** The default tokens "true" and "false" round-trip under every flag word. */
  lemma DefaultRoundTrip(flags: bv64, b: bool)
    ensures var columnInfo := ColumnInfo(Configure(None, flags).value);
      Parse(columnInfo.configInfo, JavaToString(columnInfo, Some(b)).value) == Reading(Some(b), false)
  {
    var columnInfo := ColumnInfo(Configure(None, flags).value);
    RoundTrip(columnInfo, b);
  }

  /**
   * Configure accepts a format whose two tokens are equal up to case, and then
   * a written false reads back as true under the default comparison.
   */
  lemma CaseEqualTokensBreakRoundTrip()
    ensures Configure(Some("x,X"), 0).Success?
    ensures var columnInfo := ColumnInfo(Configure(Some("x,X"), 0).value);
      JavaToString(columnInfo, Some(false)) == Some("X")
      && Parse(columnInfo.configInfo, "X") == Reading(Some(true), false)
  {
    ConfigureAccepts("x", "X", 0);
    assert "x" + [','] + "X" == "x,X";
  }

  /** Defaults: "TRUE" reads as true, and "maybe" reads as false with no error. */
  lemma DefaultExamples()
    ensures Parse(Configure(None, 0).value, "TRUE") == Reading(Some(true), false)
    ensures Parse(Configure(None, 0).value, "maybe") == Reading(Some(false), false)
  {
    var config := Configure(None, 0).value;
    CaseVariantOfTrueReadsTrue(config, "TRUE");
  }

  /** Strict mode: "maybe" reads as null and is recorded as an invalid format. */
  lemma StrictExample()
    ensures Parse(Configure(None, ParseErrorOnInvalidValue).value, "maybe") == Reading(None, true)
  {
  }

  /** Format "Y,N" with CaseSensitive: "y" does not match "Y" and falls back to false. */
  lemma CaseSensitiveExample()
    ensures Configure(Some("Y,N"), CaseSensitive).Success?
    ensures Parse(Configure(Some("Y,N"), CaseSensitive).value, "y") == Reading(Some(false), false)
  {
    ConfigureAccepts("Y", "N", CaseSensitive);
    assert "Y" + [','] + "N" == "Y,N";
  }

  /**
   * stringToJava: reads a raw token as an optional boolean; an unrecognised
   * token in strict mode sets the error kind to INVALID_FORMAT and the
   * position to `linePos`, and otherwise the error record is left alone.
   */
  method StringToJava(linePos: int, columnInfo: ColumnInfo<ConfigInfo>, value: string, parseError: ParseError)
    returns (r: Option<bool>)
    modifies parseError
    ensures r == Parse(columnInfo.configInfo, value).value
    ensures Parse(columnInfo.configInfo, value).invalid ==>
      parseError.errorType == InvalidFormat && parseError.linePos == linePos
    ensures !Parse(columnInfo.configInfo, value).invalid ==>
      parseError.errorType == old(parseError.errorType) && parseError.linePos == old(parseError.linePos)
  {
    var configInfo := columnInfo.configInfo;
    if |value| == 0 {
      r := None;
    } else if IsEquals(configInfo, value, configInfo.trueString) {
      r := Some(true);
    } else if IsEquals(configInfo, value, configInfo.falseString) {
      r := Some(false);
    } else if configInfo.parseErrorOnInvalid {
      parseError.SetErrorType(InvalidFormat);
      parseError.SetLinePos(linePos);
      r := None;
    } else {
      r := Some(false);
    }
  }
}
