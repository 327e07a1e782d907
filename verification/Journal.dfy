/**
 * Classification of a failed login from freshly appended journal lines.
 *
 * The log is UTF-16 text in 16-bit units that the terminal may still be writing; what a
 * line means is given by `kind`, its text matching.
 */
module Journal {
  import opened Outcomes

  /** What a line says about the login: transport trouble, an unavailable service, or an explicit refusal. */
  datatype Kind = SyncFailed | CommonError | ServiceUnavailable | Rejection | Irrelevant

  type Reader = string -> Kind

  // ------------------------------------------------------------------ complete lines

  function Rstrip(line: string): string {
    if line != [] && line[|line| - 1] == '\r' then Rstrip(line[..|line| - 1]) else line
  }

  /** The text up to the first line feed, if there is one. */
  function FirstFeed(text: string): (k: Option<nat>)
    ensures k.Some? ==> k.value < |text| && text[k.value] == '\n' && '\n' !in text[..k.value]
    ensures k.None? ==> '\n' !in text
  {
    if text == [] then None
    else if text[0] == '\n' then Some(0)
    else
      var k := FirstFeed(text[1..]);
      assert k.Some? ==> text[..k.value + 1] == [text[0]] + text[1..][..k.value];
      if k.Some? then Some(k.value + 1) else None
  }

  /** split('\n')[:-1] with every line stripped of trailing carriage returns: a partial line is left out. */
  function Lines(text: string): seq<string>
    decreases |text|
  {
    match FirstFeed(text)
    case None => []
    case Some(k) => [Rstrip(text[..k])] + Lines(text[k + 1..])
  }

  ghost function Terminated(raw: seq<string>): string {
    if raw == [] then "" else raw[0] + "\n" + Terminated(raw[1..])
  }

  /** The line without the carriage returns at its end. */
  ghost predicate IsStripped(raw: string, line: string) {
    && |line| <= |raw| && raw[..|line|] == line
    && (forall i :: |line| <= i < |raw| ==> raw[i] == '\r')
    && (line != "" ==> line[|line| - 1] != '\r')
  }

  lemma {:induction false} RstripStrips(raw: string)
    ensures IsStripped(raw, Rstrip(raw))
  {
    if raw != "" && raw[|raw| - 1] == '\r' {
      RstripStrips(raw[..|raw| - 1]);
    }
  }

  ghost predicate AreStripped(raw: seq<string>, lines: seq<string>) {
    |raw| == |lines| && forall i :: 0 <= i < |raw| ==> '\n' !in raw[i] && IsStripped(raw[i], lines[i])
  }

  lemma StrippedPrepend(first: string, raw: seq<string>, lines: seq<string>, later: string, rest: string)
    requires '\n' !in first && AreStripped(raw, lines) && later == Terminated(raw) + rest
    ensures AreStripped([first] + raw, [Rstrip(first)] + lines)
    ensures first + "\n" + later == Terminated([first] + raw) + rest
  {
    RstripStrips(first);
    assert ([first] + raw)[1..] == raw;
  }

  /** The text is its terminated lines and a rest without a line feed, which is left out. */
  lemma {:induction false} LinesAreTheText(text: string) returns (raw: seq<string>, rest: string)
    ensures text == Terminated(raw) + rest && '\n' !in rest
    ensures AreStripped(raw, Lines(text))
    decreases |text|
  {
    if FirstFeed(text).None? {
      raw, rest := [], text;
    } else {
      var k := FirstFeed(text).value;
      var later, end := LinesAreTheText(text[k + 1..]);
      StrippedPrepend(text[..k], later, Lines(text[k + 1..]), text[k + 1..], end);
      raw, rest := [text[..k]] + later, end;
      assert text == text[..k] + "\n" + text[k + 1..];
    }
  }

  lemma FirstFeedOfPrefix(text: string, more: string)
    requires FirstFeed(text).Some?
    ensures FirstFeed(text + more) == FirstFeed(text)
  {
    if text[0] != '\n' {
      assert (text + more)[1..] == text[1..] + more;
      FirstFeedOfPrefix(text[1..], more);
    }
  }

  /** What was read of a log stays a prefix when the log grows: no line is invented or changed. */
  lemma {:induction false} LinesArePrefix(text: string, more: string)
    ensures Lines(text) <= Lines(text + more)
    decreases |text|
  {
    if FirstFeed(text).Some? {
      var k := FirstFeed(text).value;
      FirstFeedOfPrefix(text, more);
      assert (text + more)[..k] == text[..k] && (text + more)[k + 1..] == text[k + 1..] + more;
      LinesArePrefix(text[k + 1..], more);
    }
  }

  // ------------------------------------------------------------------ one pass over the lines

  /** Undecided evidence may settle later; a decided pass ends the wait. */
  datatype Verdict = Rejected | NetworkUnavailable | Undecided

  ghost predicate Says(lines: seq<string>, kind: Reader, k: Kind) {
    exists line :: line in lines && kind(line) == k
  }

  /** The verdict is a matter of which lines there are: refusal first, then transport evidence. */
  ghost function Judged(lines: seq<string>, kind: Reader): Verdict {
    if Says(lines, kind, Rejection) then Rejected
    else if Says(lines, kind, ServiceUnavailable) || (Says(lines, kind, SyncFailed) && Says(lines, kind, CommonError))
    then NetworkUnavailable
    else Undecided
  }

  /** The loop over the lines, with its three flags and its early return. */
  method Judge(lines: seq<string>, kind: Reader) returns (v: Verdict)
    ensures v == Judged(lines, kind)
  {
    var syncFailed, commonError, unavailable := false, false, false;
    for i := 0 to |lines|
      invariant !Says(lines[..i], kind, Rejection)
      invariant syncFailed <==> Says(lines[..i], kind, SyncFailed)
      invariant commonError <==> Says(lines[..i], kind, CommonError)
      invariant unavailable <==> Says(lines[..i], kind, ServiceUnavailable)
    {
      var what := kind(lines[i]);
      SaysMore(lines, kind, i);
      if what == Rejection {
        assert lines[i] in lines;
        return Rejected;
      }
      syncFailed := syncFailed || what == SyncFailed;
      commonError := commonError || what == CommonError;
      unavailable := unavailable || what == ServiceUnavailable;
    }
    assert lines[..|lines|] == lines;
    return if unavailable || (syncFailed && commonError) then NetworkUnavailable else Undecided;
  }

  lemma SaysMore(lines: seq<string>, kind: Reader, i: nat)
    requires i < |lines|
    ensures forall k :: Says(lines[..i + 1], kind, k) <==> Says(lines[..i], kind, k) || kind(lines[i]) == k
  {
    assert lines[..i + 1] == lines[..i] + [lines[i]];
    forall k ensures Says(lines[..i + 1], kind, k) <==> Says(lines[..i], kind, k) || kind(lines[i]) == k {
      if kind(lines[i]) == k { assert lines[i] in lines[..i + 1]; }
      if Says(lines[..i], kind, k) {
        var line :| line in lines[..i] && kind(line) == k;
        assert line in lines[..i + 1];
      }
    }
  }

  ghost function LineSet(lines: seq<string>): set<string> {
    set line | line in lines
  }

  /** The order and repetition of lines are irrelevant. */
  lemma JudgedBySet(a: seq<string>, b: seq<string>, kind: Reader)
    requires LineSet(a) == LineSet(b)
    ensures Judged(a, kind) == Judged(b, kind)
  {
    assert forall line :: (line in a <==> line in LineSet(a)) && (line in b <==> line in LineSet(b));
  }

  /** Verdicts are stable under append: a refusal stays, transport evidence stays or turns into a refusal. */
  lemma JudgedUnderAppend(text: string, more: string, kind: Reader)
    ensures var before, after := Judged(Lines(text), kind), Judged(Lines(text + more), kind);
            && (before == Rejected ==> after == Rejected)
            && (before == NetworkUnavailable ==> after != Undecided)
            && (after == Undecided ==> before == Undecided)
  {
    LinesArePrefix(text, more);
    assert forall line :: line in Lines(text) ==> line in Lines(text + more);
  }

  // ------------------------------------------------------------------ waiting for the evidence

  /** One look at the log: its text, a partial write that may settle, or evidence that is unusable. */
  datatype Look = Text(text: string) | Unreadable | Unusable

  datatype Code = AuthFailed | ConnectionFailed | IpcUnavailable | Network

  /**
   * The wait of `login_failure`, over the looks that fit before its deadline.  A refusal
   * keeps the native code; no evidence in time is a failed connection.
   */
  method LoginFailure(code: Code, hasBaseline: bool, looks: seq<Look>, kind: Reader) returns (r: Code)
    ensures code != AuthFailed && code != ConnectionFailed ==> r == code
    ensures (code == AuthFailed || code == ConnectionFailed) && !hasBaseline ==> r == ConnectionFailed
    ensures (code == AuthFailed || code == ConnectionFailed) && hasBaseline ==>
              match Decisive(looks, kind)
              case None => r == ConnectionFailed
              case Some(k) => r == (match looks[k]
                                    case Text(text) => if Judged(Lines(text), kind) == Rejected then code else Network
                                    case _ => ConnectionFailed)
  {
    if code != AuthFailed && code != ConnectionFailed {
      return code;
    }
    if !hasBaseline {
      return ConnectionFailed;
    }
    for i := 0 to |looks|
      invariant forall k :: 0 <= k < i ==> !Decides(looks[k], kind)
    {
      match looks[i] {
        case Unusable =>
          FirstIsDecisive(looks, kind, i);
          return ConnectionFailed;
        case Unreadable =>
        case Text(text) =>
          var v := Judge(Lines(text), kind);
          if v != Undecided {
            FirstIsDecisive(looks, kind, i);
            return if v == Rejected then code else Network;
          }
      }
    }
    NoneIsDecisive(looks, kind);
    return ConnectionFailed;
  }

  ghost predicate Decides(look: Look, kind: Reader) {
    match look
    case Text(text) => Judged(Lines(text), kind) != Undecided
    case Unreadable => false
    case Unusable => true
  }

  /** The first look that ends the wait. */
  ghost function Decisive(looks: seq<Look>, kind: Reader): (k: Option<nat>)
    ensures k.Some? ==> k.value < |looks| && Decides(looks[k.value], kind)
  {
    if looks == [] then None
    else if Decides(looks[0], kind) then Some(0)
    else match Decisive(looks[1..], kind) case None => None case Some(k) => Some(k + 1)
  }

  lemma {:induction false} FirstIsDecisive(looks: seq<Look>, kind: Reader, i: nat)
    requires i < |looks| && Decides(looks[i], kind)
    requires forall k :: 0 <= k < i ==> !Decides(looks[k], kind)
    ensures Decisive(looks, kind) == Some(i)
  {
    if i > 0 {
      FirstIsDecisive(looks[1..], kind, i - 1);
    }
  }

  lemma {:induction false} NoneIsDecisive(looks: seq<Look>, kind: Reader)
    requires forall k :: 0 <= k < |looks| ==> !Decides(looks[k], kind)
    ensures Decisive(looks, kind).None?
  {
    if looks != [] {
      NoneIsDecisive(looks[1..], kind);
    }
  }
}
