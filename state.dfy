/** The `state` filter of the booking listings and its text parser. */
module BookingState {
  import opened Common

  datatype State = ALL | CURRENT | PAST | FUTURE | WAITING | REJECTED

  const UnknownState: string := "Состояние не известно."

  /** The constant's name, as Enum.name gives it. */
  function Name(st: State): string
  {
    match st
    case ALL => "ALL"
    case CURRENT => "CURRENT"
    case PAST => "PAST"
    case FUTURE => "FUTURE"
    case WAITING => "WAITING"
    case REJECTED => "REJECTED"
  }

  /** Enum.valueOf: the constant named exactly by the text, if any. */
  function ValueOf(text: string): (r: Option<State>)
    ensures r.Some? ==> Name(r.value) == text
    ensures r.None? ==> forall st: State :: Name(st) != text
  {
    if text == "ALL" then Some(ALL)
    else if text == "CURRENT" then Some(CURRENT)
    else if text == "PAST" then Some(PAST)
    else if text == "FUTURE" then Some(FUTURE)
    else if text == "WAITING" then Some(WAITING)
    else if text == "REJECTED" then Some(REJECTED)
    else None
  }

  /** State.getState: a missing or blank text means ALL; any other text is upper-cased,
      trimmed and looked up, and a text naming no constant is refused. */
  function GetState(text: Option<string>): (r: Result<State>)
    ensures text.None? || IsBlank(text.value) ==> r == Ok(ALL)
    ensures r.Err? ==> r.error == Argument(UnknownState)
    ensures r.Err? <==>
      text.Some? && !IsBlank(text.value) && forall st: State :: Name(st) != Trim(UpperCase(text.value))
    ensures r.Ok? && text.Some? && !IsBlank(text.value) ==> Name(r.value) == Trim(UpperCase(text.value))
  {
    if text.None? || IsBlank(text.value) then Ok(ALL)
    else
      match ValueOf(Trim(UpperCase(text.value)))
      case Some(st) => Ok(st)
      case None => Err(Argument(UnknownState))
  }

  /** Each name is upper-case ASCII letters only. */
  lemma NameIsCapitals(st: State)
    ensures |Name(st)| > 0
    ensures forall i :: 0 <= i < |Name(st)| ==> 'A' <= Name(st)[i] <= 'Z'
  {
  }

  /** The text of a name parses back to its constant. */
  lemma GetStateOfName(st: State)
    ensures GetState(Some(Name(st))) == Ok(st)
  {
    var n := Name(st);
    NameIsCapitals(st);
    CapitalsKeepCase(n);
    assert [] + n + [] == n;
    GetStateIgnoresCaseAndPadding(st, [], n, []);
  }

  lemma CapitalsKeepCase(s: string)
    requires forall i :: 0 <= i < |s| ==> 'A' <= s[i] <= 'Z'
    ensures UpperCase(s) == s
  {
    UpperCaseKeeps(s);
  }

  lemma PaddingKeepsCase(s: string)
    requires forall i :: 0 <= i < |s| ==> s[i] <= ' '
    ensures UpperCase(s) == s
  {
    UpperCaseKeeps(s);
  }

  lemma BlankKeepsCase(s: string)
    requires IsBlank(s)
    ensures UpperCase(s) == s
  {
    UpperCaseKeeps(s);
  }

  /** Parsing ignores the case of the letters and any padding trim removes: every
      text whose upper case is a name, padded with characters at or below U+0020,
      parses to that constant. */
  lemma GetStateIgnoresCaseAndPadding(st: State, pre: string, s: string, post: string)
    requires UpperCase(s) == Name(st)
    requires forall i :: 0 <= i < |pre| ==> pre[i] <= ' '
    requires forall i :: 0 <= i < |post| ==> post[i] <= ' '
    ensures GetState(Some(pre + s + post)) == Ok(st)
  {
    NameIsCapitals(st);
    NormalisePadded(Name(st), pre, s, post);
    ValueOfName(st);
  }

  /** A padded text whose upper case is a run of capitals is not blank, and upper-casing
      and trimming it gives that run back. */
  lemma NormalisePadded(n: string, pre: string, s: string, post: string)
    requires n != [] && forall i :: 0 <= i < |n| ==> 'A' <= n[i] <= 'Z'
    requires UpperCase(s) == n
    requires forall i :: 0 <= i < |pre| ==> pre[i] <= ' '
    requires forall i :: 0 <= i < |post| ==> post[i] <= ' '
    ensures !IsBlank(pre + s + post)
    ensures Trim(UpperCase(pre + s + post)) == n
  {
    var text := pre + s + post;
    assert !IsBlank(text) by {
      if IsBlank(text) {
        assert forall i :: 0 <= i < |s| ==> s[i] == text[|pre| + i];
        assert IsBlank(s);
        BlankKeepsCase(s);
        assert false;
      }
    }
    PaddingKeepsCase(pre);
    PaddingKeepsCase(post);
    UpperCaseAppend(pre, s);
    UpperCaseAppend(pre + s, post);
    TrimPadded(pre, n, post);
  }

  lemma ValueOfName(st: State)
    ensures ValueOf(Name(st)) == Some(st)
  {
  }
}
