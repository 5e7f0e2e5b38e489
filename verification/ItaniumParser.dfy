/**
 The parsers of utils/extract_symbols.py for names mangled as the Itanium C++ ABI
 says in section 5.1: mutually recursive functions over suffixes of a symbol.
 */
module ItaniumParser {
  import opened ItaniumText

  /** Names with whether they have template arguments. */
  type Names = seq<(string, bool)>

  /** What skip_itanium_template returns: the rest, None, or the exception. */
  datatype Skipped = Rest(rest: string) | NoEnd | TooComplexName

  /** What parse_itanium_nested_name returns. */
  datatype Nested = Parsed(names: Names, rest: string) | Unknown | TooComplexNested

  /** parse_itanium_name: a name with its length, a constructor or destructor, or what is taken for an operator. */
  function ParseName(arg: string): (r: Option<(string, string)>)
    ensures r.Some? ==> r.value.0 != "" && |r.value.1| < |arg|
  {
    match MatchRun(arg, IsDigit, 1)
    case Some((digits, more)) =>
      var n := IntOf(digits);
      Some((digits + Take(more, n), Drop(more, n)))
    case None =>
      if |arg| > 2 && (arg[0] == 'C' || arg[0] == 'D') && '1' <= arg[1] <= '3' && DotAt(arg, 2) then
        LineFits(arg, 2);
        Some((arg[..2], Line(arg[2..])))
      else MatchRun(arg, NotE, 1)
  }

  /** S[A-Z0-9]*_ and what follows it. */
  function MatchSubstitution(s: string): (r: Option<string>)
    ensures r.Some? ==> |r.value| < |s|
  {
    if s == "" || s[0] != 'S' then None
    else
      var k := 1 + RunLength(s[1..], IsSeqId);
      if k < |s| && s[k] == '_' && DotAt(s, k + 1) then
        LineFits(s, k + 1);
        Some(Line(s[k + 1..]))
      else None
  }

  /** The loop of skip_itanium_template, from tmp on. */
  function SkipFrom(tmp: string): (r: Skipped)
    ensures r.Rest? ==> |r.rest| < |tmp|
    decreases |tmp|, 2
  {
    if tmp == "" then NoEnd
    else
      match MatchRun(tmp, IsDigit, 1)
      case Some((digits, more)) => SkipFrom(Drop(more, IntOf(digits)))
      case None =>
        match MatchSubstitution(tmp)
        case Some(more) => SkipFrom(more)
        case None =>
          if tmp[0] == 'I' then
            match SkipFrom(tmp[1..])
            case Rest(more) => SkipFrom(more)
            case NoEnd => NoEnd
            case TooComplexName => TooComplexName
          else if tmp[0] == 'N' then
            match ParseNestedName(tmp)
            case Parsed(_, more) => SkipFrom(more)
            case Unknown => NoEnd
            case TooComplexNested => TooComplexName
          else if tmp[0] == 'L' || tmp[0] == 'X' then TooComplexName
          else if tmp[0] == 'E' then Rest(tmp[1..])
          else SkipFrom(tmp[1..])
  }

  /** What parse_itanium_nested_name skips in front of the names: a substitution, and qualifiers. */
  function SkipPrefix(arg: string): (tmp: string)
    requires arg != "" && arg[0] == 'N'
    ensures |tmp| < |arg|
  {
    var tmp := match MatchSubstitution(arg[1..]) case Some(more) => more case None => arg[1..];
    match MatchRun(tmp, IsQualifier, 0) case Some((_, more)) => more case None => tmp
  }

  function ParseNestedName(arg: string): (r: Nested)
    requires arg != "" && arg[0] == 'N'
    ensures r.Parsed? ==> |r.rest| < |arg|
    decreases |arg|, 1
  {
    NamesFrom(SkipPrefix(arg), [])
  }

  /** The loop of parse_itanium_nested_name. */
  function NamesFrom(tmp: string, names: Names): (r: Nested)
    ensures r.Parsed? ==> |r.rest| < |tmp|
    decreases |tmp|, 0
  {
    if tmp == "" then Unknown
    else if tmp[0] == 'E' then Parsed(names, tmp[1..])
    else
      match ParseName(tmp)
      case None => Unknown
      case Some((name, more)) =>
        if more != "" && more[0] == 'I' then
          match SkipFrom(more[1..])
          case Rest(after) => NamesFrom(after, names + [(name, true)])
          case NoEnd => Unknown
          case TooComplexName => TooComplexNested
        else NamesFrom(more, names + [(name, false)])
  }

  // ---------- The loops ----------

  /** skip_itanium_template: its loop ends on every string. */
  method SkipItaniumTemplate(arg: string) returns (r: Skipped)
    requires arg != "" && arg[0] == 'I'
    ensures r == SkipFrom(arg[1..])
    decreases |arg|
  {
    var tmp := arg[1..];
    while tmp != ""
      invariant |tmp| < |arg| && SkipFrom(tmp) == SkipFrom(arg[1..])
      decreases |tmp|
    {
      var digits := MatchRun(tmp, IsDigit, 1);
      if digits.Some? {
        tmp := Drop(digits.value.1, IntOf(digits.value.0));
        continue;
      }
      var substitution := MatchSubstitution(tmp);
      if substitution.Some? {
        tmp := substitution.value;
      } else if tmp[0] == 'I' {
        var inner := SkipItaniumTemplate(tmp);
        match inner {
          case Rest(more) => tmp := more;
          case NoEnd => return NoEnd;
          case TooComplexName => return TooComplexName;
        }
      } else if tmp[0] == 'N' {
        var inner := ParseItaniumNestedName(tmp);
        match inner {
          case Parsed(_, more) => tmp := more;
          case Unknown => return NoEnd;
          case TooComplexNested => return TooComplexName;
        }
      } else if tmp[0] == 'L' || tmp[0] == 'X' {
        return TooComplexName;
      } else if tmp[0] == 'E' {
        return Rest(tmp[1..]);
      } else {
        tmp := tmp[1..];
      }
    }
    return NoEnd;
  }

  /** parse_itanium_nested_name: its loop ends on every string. */
  method ParseItaniumNestedName(arg: string) returns (r: Nested)
    requires arg != "" && arg[0] == 'N'
    ensures r == ParseNestedName(arg)
    decreases |arg|
  {
    var names: Names := [];
    var tmp := SkipPrefix(arg);
    while tmp != ""
      invariant |tmp| < |arg| && NamesFrom(tmp, names) == ParseNestedName(arg)
      decreases |tmp|
    {
      if tmp[0] == 'E' {
        return Parsed(names, tmp[1..]);
      }
      var name := ParseName(tmp);
      if name.None? {
        return Unknown;
      }
      var isTemplate := false;
      var more := name.value.1;
      if more != "" && more[0] == 'I' {
        var inner := SkipItaniumTemplate(more);
        match inner {
          case Rest(after) => more := after;
          case NoEnd => return Unknown;
          case TooComplexName => return TooComplexNested;
        }
        isTemplate := true;
      }
      names := names + [(name.value.0, isTemplate)];
      tmp := more;
    }
    return Unknown;
  }

  // ---------- The cases of skip_itanium_template ----------

  lemma NoNumber(t: string)
    requires t != "" && !IsDigit(t[0])
    ensures MatchRun(t, IsDigit, 1) == None
  {
  }

  lemma SkipOnTemplate(t: string)
    requires t != "" && t[0] == 'I'
    ensures SkipFrom(t) == match SkipFrom(t[1..]) case Rest(more) => SkipFrom(more) case NoEnd => NoEnd case TooComplexName => TooComplexName
  {
    NoNumber(t);
    hide MatchRun;
  }

  lemma SkipOnNested(t: string)
    requires t != "" && t[0] == 'N'
    ensures SkipFrom(t) ==
            match ParseNestedName(t) case Parsed(_, more) => SkipFrom(more) case Unknown => NoEnd case TooComplexNested => TooComplexName
  {
    NoNumber(t);
    hide MatchRun, ParseNestedName;
  }

  lemma SkipOnEnd(t: string)
    requires t != "" && t[0] == 'E'
    ensures SkipFrom(t) == Rest(t[1..])
  {
    NoNumber(t);
    hide MatchRun;
  }

  lemma SkipOnOther(t: string)
    requires t != "" && t[0] !in "INLXES" && !IsDigit(t[0])
    ensures SkipFrom(t) == SkipFrom(t[1..])
  {
    NoNumber(t);
    hide MatchRun;
  }

  lemma SkipOnSubstitution(t: string, more: string)
    requires t != "" && t[0] == 'S' && MatchSubstitution(t) == Some(more)
    ensures SkipFrom(t) == SkipFrom(more)
  {
    NoNumber(t);
    hide MatchRun, MatchSubstitution, ParseNestedName;
  }

  lemma SkipOnNumber(t: string, digits: string, more: string)
    requires t != "" && MatchRun(t, IsDigit, 1) == Some((digits, more))
    ensures SkipFrom(t) == SkipFrom(Drop(more, IntOf(digits)))
  {
    hide MatchRun, MatchSubstitution, ParseNestedName, IntOf;
  }
}
