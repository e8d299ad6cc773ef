/** The gateway's `BookingState` enum and its lenient parser for the `state`
    query parameter. */
module States {
  import opened Shared
  import opened Text

  datatype BookingState = ALL | CURRENT | PAST | FUTURE | WAITING | REJECTED

  /** `name()` of each constant. */
  function Name(s: BookingState): string {
    match s
    case ALL => "ALL"
    case CURRENT => "CURRENT"
    case PAST => "PAST"
    case FUTURE => "FUTURE"
    case WAITING => "WAITING"
    case REJECTED => "REJECTED"
  }

  /** `BookingState.valueOf`: the constant whose name is exactly `s`. */
  function ValueOf(s: string): (r: Option<BookingState>)
    ensures r.Some? ==> Name(r.value) == s
    ensures r.None? ==> forall st: BookingState :: Name(st) != s
  {
    if s == "ALL" then Some(ALL)
    else if s == "CURRENT" then Some(CURRENT)
    else if s == "PAST" then Some(PAST)
    else if s == "FUTURE" then Some(FUTURE)
    else if s == "WAITING" then Some(WAITING)
    else if s == "REJECTED" then Some(REJECTED)
    else None
  }

  /** `BookingState.parse`: null means ALL; otherwise the input is trimmed and
      upper-cased and must then name a constant exactly. */
  function Parse(status: Option<string>): (r: Result<BookingState>)
    ensures status.None? ==> r == Ok(ALL)
    ensures status.Some? ==>
      (r.Ok? <==> exists st: BookingState :: Name(st) == Upper(Trim(status.value)))
    ensures r.Ok? && status.Some? ==> Name(r.value) == Upper(Trim(status.value))
    ensures r.Err? ==> r.error == IllegalArgument("Unknown state: " + status.value)
  {
    if status.None? then Ok(ALL)
    else
      match ValueOf(Upper(Trim(status.value)))
      case Some(st) => Ok(st)
      case None => Err(IllegalArgument("Unknown state: " + status.value))
  }

  /** Every constant parses back from its own name. */
  lemma ParseName(st: BookingState)
    ensures Parse(Some(Name(st))) == Ok(st)
  {
    NameIsNormal(st);
    ValueOfName(st);
  }

  /** A name is already trimmed and upper-case. */
  lemma NameIsNormal(st: BookingState)
    ensures Upper(Trim(Name(st))) == Name(st)
  {
    TrimKeeps(Name(st));
    UpperOfUpper(Name(st));
  }

  /** `valueOf` finds each constant under its own name. */
  lemma ValueOfName(st: BookingState)
    ensures ValueOf(Name(st)) == Some(st)
  {
    match st
    case ALL =>
    case CURRENT =>
    case PAST =>
    case FUTURE =>
    case WAITING =>
    case REJECTED =>
  }

  /** Parsing ignores letter case and surrounding blanks: any spelling whose
      trimmed, upper-cased form is a name parses to that constant. */
  lemma ParseLenient(st: BookingState, pre: string, body: string, post: string)
    requires forall i :: 0 <= i < |pre| ==> pre[i] <= ' '
    requires forall i :: 0 <= i < |post| ==> post[i] <= ' '
    requires Upper(body) == Name(st)
    ensures Parse(Some(pre + body + post)) == Ok(st)
  {
    var s := pre + body + post;
    assert body != [] && ' ' < body[0] && ' ' < body[|body| - 1] by {
      assert |body| == |Name(st)| && |Name(st)| >= 3;
      assert UpperChar(body[0]) == Name(st)[0];
      assert UpperChar(body[|body| - 1]) == Name(st)[|body| - 1];
    }
    TrimAround(pre, body, post);
  }

  /** Trimming removes exactly the blank margins around a visible body. */
  lemma TrimAround(pre: string, body: string, post: string)
    requires forall i :: 0 <= i < |pre| ==> pre[i] <= ' '
    requires forall i :: 0 <= i < |post| ==> post[i] <= ' '
    requires body != [] && ' ' < body[0] && ' ' < body[|body| - 1]
    ensures Trim(pre + body + post) == body
  {
    var s := pre + body + post;
    var r := Trim(s);
    assert s[|pre|] == body[0];
    assert Lead(s) == |pre|;
    assert s[|pre| + |body| - 1] == body[|body| - 1];
    assert Lead(s) + |r| == |pre| + |body|;
    assert r == s[|pre|..|pre| + |body|];
  }

  lemma UpperOfUpper(n: string)
    requires forall i :: 0 <= i < |n| ==> 'A' <= n[i] <= 'Z'
    ensures Upper(n) == n
  {
  }

  /** Names that are not names of a constant are rejected, quoting the input
      as given. */
  lemma ParseUnknown(s: string)
    requires forall st: BookingState :: Name(st) != Upper(Trim(s))
    ensures Parse(Some(s)) == Err(IllegalArgument("Unknown state: " + s))
  {
  }
}
