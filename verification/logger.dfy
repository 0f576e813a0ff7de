/**
 * mkr.build.Logger: an enable-able sink that counts how often it was asked to log
 * (`used`) and how often it actually wrote (`written`). The abstract `write` is an
 * append to `output`.
 */
module Logging {

  datatype Logger = Logger(enabled: bool, uses: nat, written: nat, output: seq<string>)

  /** The counters agree with the output: only enabled log calls write. */
  predicate Valid(l: Logger) {
    l.written <= l.uses && |l.output| == l.written
  }

  /** `used()` */
  predicate Used(l: Logger) {
    l.uses > 0
  }

  /** A new logger: enabled, nothing logged or written. */
  function New(): (l: Logger)
    ensures l.enabled && !Used(l) && l.written == 0 && l.output == []
    ensures Valid(l)
  {
    Logger(true, 0, 0, [])
  }

  /** `enabled(b)`: sets the flag and hands back the same logger with its counters untouched. */
  function SetEnabled(l: Logger, b: bool): (r: Logger)
    ensures r.enabled == b
    ensures r.uses == l.uses && r.written == l.written && r.output == l.output
  {
    l.(enabled := b)
  }

  /** `log(msg)`: always counts the call; writes only when enabled. */
  function Log(l: Logger, msg: string): (r: Logger)
    ensures r.enabled == l.enabled && r.uses == l.uses + 1 && Used(r)
    ensures l.enabled ==> r.written == l.written + 1 && r.output == l.output + [msg]
    ensures !l.enabled ==> r.written == l.written && r.output == l.output
    ensures Valid(l) ==> Valid(r)
  {
    if l.enabled then
      l.(uses := l.uses + 1, written := l.written + 1, output := l.output + [msg])
    else
      l.(uses := l.uses + 1)
  }

  /** Logs several messages in order. */
  function LogAll(l: Logger, msgs: seq<string>): (r: Logger)
    ensures r.enabled == l.enabled && r.uses == l.uses + |msgs|
    ensures l.enabled ==> r.output == l.output + msgs
    ensures !l.enabled ==> r.output == l.output
    ensures Valid(l) ==> Valid(r)
    decreases |msgs|
  {
    if msgs == [] then l else LogAll(Log(l, msgs[0]), msgs[1..])
  }

  /** One call made on a logger by its clients. */
  datatype Call = Enable(on: bool) | Message(text: string)

  function Apply(l: Logger, calls: seq<Call>): Logger
    decreases |calls|
  {
    if calls == [] then l
    else
      var l' := match calls[0]
        case Enable(b) => SetEnabled(l, b)
        case Message(m) => Log(l, m);
      Apply(l', calls[1..])
  }

  function CountMessages(calls: seq<Call>): (n: nat)
    ensures n <= |calls|
  {
    if calls == [] then 0 else (if calls[0].Message? then 1 else 0) + CountMessages(calls[1..])
  }

  /**
   * Over any sequence of calls, `used` counts exactly the log calls, `written` never
   * exceeds them, and the counters stay consistent with what was written.
   */
  lemma {:induction false} ApplyCounts(l: Logger, calls: seq<Call>)
    requires Valid(l)
    ensures Apply(l, calls).uses == l.uses + CountMessages(calls)
    ensures Apply(l, calls).written <= l.written + CountMessages(calls)
    ensures Valid(Apply(l, calls))
    decreases |calls|
  {
    if calls != [] {
      var l' := match calls[0]
        case Enable(b) => SetEnabled(l, b)
        case Message(m) => Log(l, m);
      ApplyCounts(l', calls[1..]);
    }
  }

  lemma {:induction false} CountMessagesPositive(calls: seq<Call>)
    ensures CountMessages(calls) > 0 <==> exists i :: 0 <= i < |calls| && calls[i].Message?
  {
    if calls != [] {
      CountMessagesPositive(calls[1..]);
      if calls[0].Message? {
      } else {
        assert forall i :: 1 <= i < |calls| ==> calls[i] == calls[1..][i - 1];
      }
    }
  }

  /** A new logger is used exactly when some call was a log call, whether or not it was enabled. */
  lemma UsedIffLogged(calls: seq<Call>)
    ensures Used(Apply(New(), calls)) <==> exists i :: 0 <= i < |calls| && calls[i].Message?
  {
    ApplyCounts(New(), calls);
    CountMessagesPositive(calls);
  }
}
