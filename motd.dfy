/**
 * MOTDService: watches the department's motd.dat file, a list of notices
 * written as "[Message]" sections of key=value lines, and announces to one
 * channel each notice whose id is above the last id it announced. It also
 * answers "motd" with the message-of-the-day file.
 *
 * The files are given as their lines, already read; the file's modification
 * time is a parameter, and so is the tag stripping Message.toString does
 * with regular expressions.
 */
module Motd {
  import opened Strings
  import opened Tokens
  import opened Irc

  const HEADER := "[Message]"
  const ID := "id"
  const ACTIVE := "active"
  const TITLE := "title"
  const LONG := "long"
  const POSTER_ID := "posterid"
  const POSTER_NAME := "postername"
  const TRUE := "true"
  const NULL := "null"
  const MOTD := "motd"

  /** One notice; None stands for a field still null. */
  datatype Record = Record(
    id: Option<int>,
    active: Option<bool>,
    title: Option<string>,
    content: Option<string>,
    posterUid: Option<string>,
    posterName: Option<string>)

  /** A Message as its constructor leaves it: every field null. */
  const BLANK := Record(None, None, None, None, None, None)

  /**
   * The state of the scan: the notice being filled (`curr`), the notices
   * finished so far, most recent first, as LinkedList.push leaves them, and
   * whether lines without '=' continue the notice's content.
   */
  datatype Scan = Scan(curr: Option<Record>, stack: seq<Record>, content: bool)

  const START := Scan(None, [], false)

  /** The finished notices once `curr` is pushed too. */
  function Pushed(s: Scan): (r: seq<Record>)
    ensures |r| == |s.stack| + (if s.curr.Some? then 1 else 0)
  {
    if s.curr.Some? then [s.curr.value] + s.stack else s.stack
  }

  /** Java string concatenation, where a null operand reads "null". */
  function Concat(a: Option<string>, b: string): string {
    (if a.Some? then a.value else NULL) + b
  }

  /** The switch on a key: what the value does to the notice; None where parseInt throws. */
  function Assign(r: Record, field: string, value: string): (a: Option<Record>)
    ensures a.None? <==> field == ID && ParseInt(value).None?
  {
    if field == ID then
      match ParseInt(value)
      case None => None
      case Some(n) => Some(r.(id := Some(n)))
    else if field == ACTIVE then Some(r.(active := Some(EqualsIgnoreCase(value, TRUE))))
    else if field == TITLE then Some(r.(title := Some(value)))
    else if field == LONG then Some(r.(content := Some(value)))
    else if field == POSTER_ID then Some(r.(posterUid := Some(value)))
    else if field == POSTER_NAME then Some(r.(posterName := Some(value)))
    else Some(r)
  }

  /**
   * One line of the file. None where the line throws: an empty line fails
   * at charAt(0), an id that is not a number at parseInt; either ends the
   * scan.
   */
  function Step(s: Scan, raw: string): Option<Scan> {
    var line := Trim(raw);
    if line == [] then None
    else if line[0] == '#' then Some(s)
    else if line == HEADER then Some(Scan(Some(BLANK), Pushed(s), false))
    else if s.curr.None? then Some(s)
    else InNotice(s.curr.value, s.stack, s.content, line)
  }

  /**
   * A line of a notice that is neither a comment nor a header: a key=value
   * line, or a line that continues the content or is ignored.
   */
  function InNotice(curr: Record, stack: seq<Record>, content: bool, line: string): (r: Option<Scan>)
    ensures r.Some? ==> r.value.curr.Some? && r.value.stack == stack
  {
    var div := IndexOf(line, "=");
    if div == -1 then
      Some(Scan(Some(if content then curr.(content := Some(Concat(curr.content, line))) else curr), stack, content))
    else
      var field := ToLower(line[..div]);
      match Assign(curr, field, line[div + 1..])
      case None => None
      case Some(r) => Some(Scan(Some(r), stack, field == LONG))
  }

  /** Where the scan of `lines` from `s` stops: at the end, or before the first line that throws. */
  function ScanLines(s: Scan, lines: seq<string>): Scan
    decreases |lines|
  {
    if lines == [] then s
    else match Step(s, lines[0])
      case None => s
      case Some(t) => ScanLines(t, lines[1..])
  }

  /** Scanning from line i is one step, then scanning from line i + 1 unless that step throws. */
  lemma ScanFrom(s: Scan, lines: seq<string>, i: nat)
    requires i < |lines|
    ensures ScanLines(s, lines[i..]) == match Step(s, lines[i])
      case None => s
      case Some(t) => ScanLines(t, lines[i + 1..])
  {
    assert lines[i..][0] == lines[i] && lines[i..][1..] == lines[i + 1..];
  }

  /** How many lines that scan reads without throwing. */
  function LinesRead(s: Scan, lines: seq<string>): (n: nat)
    ensures n <= |lines|
    decreases |lines|
  {
    if lines == [] then 0
    else match Step(s, lines[0])
      case None => 0
      case Some(t) => 1 + LinesRead(t, lines[1..])
  }

  /** The notices of a file, most recent in the file first. */
  function Records(lines: seq<string>): (r: seq<Record>)
    ensures |r| == Headers(lines[..LinesRead(START, lines)])
  {
    RecordPerHeader(START, lines);
    Pushed(ScanLines(START, lines))
  }

  /** The number of "[Message]" lines. */
  function Headers(lines: seq<string>): nat {
    if lines == [] then 0 else (if Trim(lines[0]) == HEADER then 1 else 0) + Headers(lines[1..])
  }

  /** Continuation lines are only accepted while a notice with content is being filled. */
  predicate WellFormed(s: Scan) {
    s.content ==> s.curr.Some? && s.curr.value.content.Some?
  }

  lemma StepWellFormed(s: Scan, raw: string)
    requires WellFormed(s)
    ensures Step(s, raw).Some? ==> WellFormed(Step(s, raw).value)
  {
  }

  /** A step either keeps the number of notices or, on a header line, adds one. */
  lemma StepCounts(s: Scan, raw: string)
    requires Step(s, raw).Some?
    ensures |Pushed(Step(s, raw).value)| == |Pushed(s)| + (if Trim(raw) == HEADER then 1 else 0)
  {
    var line := Trim(raw);
    if line != HEADER && line[0] != '#' && s.curr.Some? {
      assert Step(s, raw) == InNotice(s.curr.value, s.stack, s.content, line);
    }
  }

  /** Every "[Message]" line read starts exactly one notice, and nothing else does. */
  lemma {:induction false} RecordPerHeader(s: Scan, lines: seq<string>)
    ensures |Pushed(ScanLines(s, lines))| == |Pushed(s)| + Headers(lines[..LinesRead(s, lines)])
    decreases |lines|
  {
    if lines == [] || Step(s, lines[0]).None? {
      assert LinesRead(s, lines) == 0 && ScanLines(s, lines) == s;
      assert lines[..0] == [];
    } else {
      var t := Step(s, lines[0]).value;
      StepCounts(s, lines[0]);
      RecordPerHeader(t, lines[1..]);
      HeadersPrefix(lines, LinesRead(t, lines[1..]));
    }
  }

  lemma HeadersPrefix(lines: seq<string>, n: nat)
    requires n < |lines|
    ensures Headers(lines[..n + 1]) == (if Trim(lines[0]) == HEADER then 1 else 0) + Headers(lines[1..][..n])
  {
    assert lines[..n + 1][0] == lines[0] && lines[..n + 1][1..] == lines[1..][..n];
  }

  /** A file read to the end has exactly one notice per "[Message]" line. */
  lemma RecordsOfCompleteFile(lines: seq<string>)
    requires LinesRead(START, lines) == |lines|
    ensures |Records(lines)| == Headers(lines)
  {
    RecordPerHeader(START, lines);
    assert lines[..|lines|] == lines;
  }

  /** Comment lines change nothing. */
  lemma CommentSkipped(s: Scan, raw: string)
    requires Trim(raw) != [] && Trim(raw)[0] == '#'
    ensures Step(s, raw) == Some(s)
  {
  }

  /** An empty or blank line ends the scan: no line after it is read. */
  lemma BlankLineEndsScan(s: Scan, raw: string, rest: seq<string>)
    requires Trim(raw) == []
    ensures ScanLines(s, [raw] + rest) == s && LinesRead(s, [raw] + rest) == 0
  {
  }

  lemma HeaderHasNoEquals()
    ensures forall i :: 0 <= i < |HEADER| ==> HEADER[i] != '='
  {
  }

  /** A key=value line splits at its first '='; the value may hold further '='s. */
  lemma KeyValueSplit(line: string, key: string, value: string)
    requires line == key + "=" + value && '=' !in key
    ensures IndexOf(line, "=") == |key| && line[..|key|] == key && line[|key| + 1..] == value
    ensures line != HEADER
  {
    assert OccursAt(line, "=", |key|);
    assert line[|key|] == '=';
    HeaderHasNoEquals();
  }

  /**
   * A key=value line in a notice: the key, lower-cased, picks the field the
   * value goes to; "long" starts a content block and any other key ends it.
   */
  lemma KeyValueStep(s: Scan, raw: string, key: string, value: string)
    requires s.curr.Some? && Trim(raw) == key + "=" + value
    requires '=' !in key && key != [] && key[0] != '#'
    ensures Step(s, raw) == match Assign(s.curr.value, ToLower(key), value)
      case None => None
      case Some(r) => Some(Scan(Some(r), s.stack, ToLower(key) == LONG))
  {
    KeyValueSplit(Trim(raw), key, value);
  }

  /** An "id" value that is not a number ends the scan, and the notice keeps its old id. */
  lemma BadIdEndsScan(s: Scan, raw: string, key: string, value: string, rest: seq<string>)
    requires s.curr.Some? && Trim(raw) == key + "=" + value
    requires '=' !in key && key != [] && key[0] != '#'
    requires ToLower(key) == ID && ParseInt(value).None?
    ensures ScanLines(s, [raw] + rest) == s
  {
    KeyValueStep(s, raw, key, value);
  }

  /** Inside a content block, a line without '=' is appended to the content, with no separator. */
  lemma ContinuationAppended(s: Scan, raw: string)
    requires WellFormed(s) && s.content
    requires Trim(raw) != [] && Trim(raw)[0] != '#' && Trim(raw) != HEADER && '=' !in Trim(raw)
    ensures Step(s, raw) == Some(s.(curr := Some(s.curr.value.(content := Some(s.curr.value.content.value + Trim(raw))))))
  {
    var line := Trim(raw);
    assert Step(s, raw) == InNotice(s.curr.value, s.stack, s.content, line);
    NoEquals(line);
  }

  /** Outside a content block, a line without '=' is ignored. */
  lemma StrayLineIgnored(s: Scan, raw: string)
    requires !s.content
    requires Trim(raw) != [] && Trim(raw) != HEADER && '=' !in Trim(raw)
    ensures Step(s, raw) == Some(s)
  {
    var line := Trim(raw);
    if line[0] != '#' && s.curr.Some? {
      assert Step(s, raw) == InNotice(s.curr.value, s.stack, s.content, line);
      NoEquals(line);
    }
  }

  lemma NoEquals(line: string)
    requires '=' !in line
    ensures IndexOf(line, "=") == -1
  {
    forall j: nat | j < |line| ensures !OccursAt(line, "=", j) {
      if j + 1 <= |line| {
        assert line[j..j + 1][0] == line[j];
      }
    }
  }

  // ---------------------------------------------------------------------
  // Announcing
  // ---------------------------------------------------------------------

  /** A field as String.format renders it: "null" for null. */
  function OrNull(s: Option<string>): string {
    if s.Some? then s.value else NULL
  }

  /**
   * Message.toString, "#<id> *<poster name>* (<poster uid>@doc): <title>"
   * and the content on the next line; `strip` is its tag replacement.
   */
  function Notice(m: Record, strip: string -> string): string {
    "#" + (if m.id.Some? then IntToString(m.id.value) else NULL) + " *" + OrNull(m.posterName) + "* ("
      + OrNull(m.posterUid) + "@doc): " + OrNull(m.title) + "\n" + strip(OrNull(m.content))
  }

  predicate Announceable(m: Record) {
    m.id.Some? && m.content.Some?
  }

  function Notices(rs: seq<Record>, strip: string -> string): (r: seq<string>)
    ensures |r| == |rs|
  {
    if rs == [] then [] else [Notice(rs[0], strip)] + Notices(rs[1..], strip)
  }

  /**
   * The outcome of a sending pass: the new watermark, the notices sent in
   * order, and whether a NullPointerException ended the pass.
   */
  datatype Sent = Sent(lastId: int, sent: seq<Record>, thrown: bool)

  /**
   * The sending pass over the stack, front to back: a notice above the
   * watermark is sent and raises it. A null id fails the comparison, and a
   * null content fails toString before the notice goes out.
   */
  function SendPass(stack: seq<Record>, lastId: int): (r: Sent)
    ensures |r.sent| <= |stack|
    ensures forall i :: 0 <= i < |r.sent| ==> r.sent[i] in stack
    decreases |stack|
  {
    if stack == [] then Sent(lastId, [], false)
    else
      var m := stack[0];
      if m.id.None? then Sent(lastId, [], true)
      else if m.id.value <= lastId then SendPass(stack[1..], lastId)
      else if m.content.None? then Sent(lastId, [], true)
      else
        var rest := SendPass(stack[1..], m.id.value);
        Sent(rest.lastId, [m] + rest.sent, rest.thrown)
  }

  /** A pass that first sent `notices` and then went on as `r`. */
  function Continued(notices: seq<Record>, r: Sent): Sent {
    Sent(r.lastId, notices + r.sent, r.thrown)
  }

  lemma ContinuedNone(notices: seq<Record>, lastId: int)
    ensures Continued(notices, Sent(lastId, [], true)) == Sent(lastId, notices, true)
    ensures Continued(notices, Sent(lastId, [], false)) == Sent(lastId, notices, false)
  {
    assert notices + [] == notices;
  }

  lemma ContinuedOne(notices: seq<Record>, m: Record, r: Sent)
    ensures Continued(notices, Sent(r.lastId, [m] + r.sent, r.thrown)) == Continued(notices + [m], r)
  {
    assert notices + ([m] + r.sent) == (notices + [m]) + r.sent;
  }

  /** The pass from notice i on: notice i, then the pass from notice i + 1. */
  lemma SendFrom(stack: seq<Record>, i: nat, lastId: int)
    requires i < |stack|
    ensures var m := stack[i];
      SendPass(stack[i..], lastId) ==
        if m.id.None? then Sent(lastId, [], true)
        else if m.id.value <= lastId then SendPass(stack[i + 1..], lastId)
        else if m.content.None? then Sent(lastId, [], true)
        else
          var rest := SendPass(stack[i + 1..], m.id.value);
          Sent(rest.lastId, [m] + rest.sent, rest.thrown)
  {
    assert stack[i..][0] == stack[i] && stack[i..][1..] == stack[i + 1..];
  }

  /**
   * The watermark never goes down; every notice sent had an id above the
   * old watermark and a content, and the new watermark is the id of the
   * last notice sent.
   */
  lemma {:induction false} SendPassBounds(stack: seq<Record>, lastId: int)
    ensures var r := SendPass(stack, lastId);
      r.lastId >= lastId &&
      (forall i :: 0 <= i < |r.sent| ==> Announceable(r.sent[i]) && r.sent[i].id.value > lastId) &&
      (r.sent == [] ==> r.lastId == lastId) &&
      (r.sent != [] ==> r.sent[|r.sent| - 1].id == Some(r.lastId))
    decreases |stack|
  {
    if stack != [] {
      var m := stack[0];
      if m.id.Some? {
        if m.id.value <= lastId {
          SendPassBounds(stack[1..], lastId);
        } else if m.content.Some? {
          SendPassBounds(stack[1..], m.id.value);
          var rest := SendPass(stack[1..], m.id.value);
          assert SendPass(stack, lastId).sent == [m] + rest.sent;
        }
      }
    }
  }

  /** Notices go out in strictly increasing id order. */
  lemma {:induction false} SentIdsIncrease(stack: seq<Record>, lastId: int)
    ensures Complete(SendPass(stack, lastId).sent) && IdsAscending(SendPass(stack, lastId).sent)
    decreases |stack|
  {
    SendPassBounds(stack, lastId);
    if stack != [] {
      var m := stack[0];
      if m.id.Some? {
        if m.id.value <= lastId {
          assert SendPass(stack, lastId) == SendPass(stack[1..], lastId);
          SentIdsIncrease(stack[1..], lastId);
        } else if m.content.Some? {
          SentIdsIncrease(stack[1..], m.id.value);
          SendPassBounds(stack[1..], m.id.value);
        }
      }
    }
  }

  /** Every notice has an id and a content. */
  predicate Complete(stack: seq<Record>) {
    forall i :: 0 <= i < |stack| ==> Announceable(stack[i])
  }

  /** Ids strictly increase from the front of the stack, as a file listing newest first gives. */
  predicate IdsAscending(stack: seq<Record>)
    requires Complete(stack)
  {
    forall i, j :: 0 <= i < j < |stack| ==> stack[i].id.value < stack[j].id.value
  }

  /** The notices with an id above `lastId`, in stack order. */
  function Newer(stack: seq<Record>, lastId: int): (r: seq<Record>)
    requires Complete(stack)
    ensures |r| <= |stack|
  {
    if stack == [] then []
    else if stack[0].id.value > lastId then [stack[0]] + Newer(stack[1..], lastId)
    else Newer(stack[1..], lastId)
  }

  /**
   * When the file lists notices newest first, a pass sends exactly the
   * notices above the watermark, oldest first, and does not fail.
   */
  lemma {:induction false} AscendingSendsAllNewer(stack: seq<Record>, lastId: int)
    requires Complete(stack) && IdsAscending(stack)
    ensures SendPass(stack, lastId) == Sent(if Newer(stack, lastId) == [] then lastId else stack[|stack| - 1].id.value, Newer(stack, lastId), false)
    decreases |stack|
  {
    if stack != [] {
      var m := stack[0];
      var rest := stack[1..];
      assert Complete(rest) && IdsAscending(rest);
      if m.id.value <= lastId {
        AscendingSendsAllNewer(rest, lastId);
        if Newer(rest, lastId) != [] {
          assert rest[|rest| - 1] == stack[|stack| - 1];
        }
      } else {
        AscendingSendsAllNewer(rest, m.id.value);
        if rest != [] {
          assert rest[|rest| - 1] == stack[|stack| - 1];
          assert rest[0].id.value > m.id.value;
          NewerAbove(rest, m.id.value, lastId);
        }
      }
    }
  }

  /** Raising the watermark below every id changes nothing. */
  lemma {:induction false} NewerAbove(stack: seq<Record>, a: int, b: int)
    requires Complete(stack) && b <= a
    requires forall i :: 0 <= i < |stack| ==> stack[i].id.value > a
    ensures Newer(stack, a) == Newer(stack, b) == stack
    decreases |stack|
  {
    if stack != [] {
      NewerAbove(stack[1..], a, b);
    }
  }

  /**
   * When the file lists notices oldest first, a pass sends only the newest
   * notice, since it raises the watermark above all the others.
   */
  lemma {:induction false} DescendingSendsOnlyNewest(stack: seq<Record>, lastId: int)
    requires Complete(stack) && stack != [] && stack[0].id.value > lastId
    requires forall i :: 0 < i < |stack| ==> stack[i].id.value < stack[0].id.value
    ensures SendPass(stack, lastId).sent == [stack[0]]
  {
    var rest := stack[1..];
    NothingSent(rest, stack[0].id.value);
  }

  lemma {:induction false} NothingSent(stack: seq<Record>, lastId: int)
    requires Complete(stack)
    requires forall i :: 0 <= i < |stack| ==> stack[i].id.value <= lastId
    ensures SendPass(stack, lastId) == Sent(lastId, [], false)
    decreases |stack|
  {
    if stack != [] {
      NothingSent(stack[1..], lastId);
    }
  }

  /**
   * The initial pass sets the watermark to the id of the last notice on the
   * stack, the first in the file; None where that id is null and unboxing
   * it throws.
   */
  function InitialId(stack: seq<Record>, lastId: int): Option<int> {
    if stack == [] then Some(lastId) else stack[|stack| - 1].id
  }

  /**
   * After a restart on a file that lists notices newest first, nothing in
   * the file is announced again.
   */
  lemma RestartSendsNothing(stack: seq<Record>, lastId: int)
    requires Complete(stack) && IdsAscending(stack)
    ensures SendPass(stack, InitialId(stack, lastId).value) == Sent(InitialId(stack, lastId).value, [], false)
  {
    var w := InitialId(stack, lastId).value;
    NothingSent(stack, w);
  }

  // ---------------------------------------------------------------------
  // The motd command
  // ---------------------------------------------------------------------

  /** "<nick>: motd" with nothing after it, or "motd" in a private message. */
  predicate MotdRequested(m: Message) {
    var addressed := Consume(m.text, m.nick + ":");
    if !addressed.ok && m.channel.Some? then false
    else
      var asked := Consume(addressed.rest, MOTD);
      asked.ok && asked.rest == []
  }

  /** The command word that follows "<nick>: ". */
  lemma AddressedWord(m: Message, word: string, w: string)
    requires m.text == m.nick + ": " + word + w && word != [] && !IsSpace(word[0])
    ensures Consume(m.text, m.nick + ":") == Consumed(true, word + w)
  {
    var after := word + w;
    assert m.text == (m.nick + ":") + (" " + after);
    ConsumePrefix(m.nick + ":", " " + after);
    assert after[0] == word[0];
    SkipOneSpace(after);
  }

  lemma MotdWord()
    ensures MOTD != [] && !IsSpace(MOTD[0])
  {
    assert MOTD[0] == 'm';
  }

  /** "<nick>: motd" asks for the message of the day, wherever it is said. */
  lemma AddressedMotd(m: Message)
    requires m.text == m.nick + ": " + MOTD
    ensures MotdRequested(m)
  {
    MotdWord();
    assert m.text == m.nick + ": " + MOTD + [];
    AddressedWord(m, MOTD, []);
    ConsumePrefix(MOTD, []);
  }

  /** "<nick>: motd <w>", with a further word, is not the command. */
  lemma MotdWithArgumentIgnored(m: Message, w: string)
    requires m.text == m.nick + ": " + MOTD + " " + w && w != [] && !IsSpace(w[0])
    ensures !MotdRequested(m)
  {
    MotdWord();
    var tail := " " + w;
    assert m.text == m.nick + ": " + MOTD + tail;
    AddressedWord(m, MOTD, tail);
    ConsumePrefix(MOTD, tail);
    SkipOneSpace(w);
  }

  class MotdService {
    /** The channel (or user) new notices are sent to. */
    const channel: string
    /** The id of the last notice sent. */
    var lastId: int
    /** The modification time of the file at the last pass. */
    var lastModified: int

    constructor (channel: string)
      ensures this.channel == channel && lastId == 0 && lastModified == 0
    {
      this.channel := channel;
      lastId := 0;
      lastModified := 0;
    }

    /**
     * new MOTDService(...): the initial pass over the file, which sends
     * nothing; None where it throws.
     */
    static method Start(channel: string, lines: seq<string>, modified: int, strip: string -> string)
      returns (s: Option<MotdService>)
      ensures s.None? <==> InitialId(Records(lines), 0).None?
      ensures s.Some? ==> fresh(s.value) && s.value.channel == channel
      ensures s.Some? ==> s.value.lastId == InitialId(Records(lines), 0).value && s.value.lastModified == modified
    {
      var service := new MotdService(channel);
      var sent, thrown := service.ProcessFile(lines, modified, true, strip);
      if thrown {
        return None;
      }
      return Some(service);
    }

    /** The scan of processFile: the notices of the file, most recent first. */
    static method ParseFile(lines: seq<string>) returns (stack: seq<Record>)
      ensures stack == Records(lines)
    {
      var curr: Option<Record> := None;
      var content := false;
      stack := [];
      var i := 0;
      while i < |lines|
        invariant 0 <= i <= |lines|
        invariant ScanLines(Scan(curr, stack, content), lines[i..]) == ScanLines(START, lines)
      {
        ghost var before := Scan(curr, stack, content);
        ScanFrom(before, lines, i);
        var line := Trim(lines[i]);
        if line == [] {
          assert Step(before, lines[i]).None?;
          break;
        }
        if line[0] == '#' {
          assert Step(before, lines[i]) == Some(before);
        } else if line == HEADER {
          assert Step(before, lines[i]) == Some(Scan(Some(BLANK), Pushed(before), false));
          if curr.Some? {
            stack := [curr.value] + stack;
          }
          curr := Some(BLANK);
          content := false;
        } else if curr.None? {
          assert Step(before, lines[i]) == Some(before);
        } else {
          assert Step(before, lines[i]) == InNotice(curr.value, stack, content, line);
          var next := NoticeLine(curr.value, stack, content, line);
          if next.None? {
            break;
          }
          curr, content := next.value.curr, next.value.content;
        }
        i := i + 1;
      }
      if curr.Some? {
        stack := [curr.value] + stack;
      }
    }

    /** The part of the loop for a line inside a notice. */
    static method NoticeLine(curr: Record, stack: seq<Record>, content: bool, line: string) returns (next: Option<Scan>)
      ensures next == InNotice(curr, stack, content, line)
    {
      var div := IndexOf(line, "=");
      if div == -1 {
        if content {
          return Some(Scan(Some(curr.(content := Some(Concat(curr.content, line)))), stack, true));
        }
        return Some(Scan(Some(curr), stack, false));
      }
      var field := ToLower(line[..div]);
      var value := line[div + 1..];
      var updated := Assign(curr, field, value);
      if updated.None? {
        return None;
      }
      return Some(Scan(updated, stack, field == LONG));
    }

    /**
     * processFile: reads the file, records its modification time, then
     * either takes the watermark from the first notice (the initial pass) or
     * sends the notices above it.
     */
    method ProcessFile(lines: seq<string>, modified: int, initial: bool, strip: string -> string)
      returns (sent: seq<string>, thrown: bool)
      modifies this
      ensures lastModified == modified
      ensures initial ==> sent == [] && (thrown <==> InitialId(Records(lines), old(lastId)).None?)
      ensures initial ==> lastId == if thrown then old(lastId) else InitialId(Records(lines), old(lastId)).value
      ensures !initial ==> var r := SendPass(Records(lines), old(lastId));
        lastId == r.lastId && thrown == r.thrown && sent == Notices(r.sent, strip)
    {
      var stack := ParseFile(lines);
      lastModified := modified;
      if initial {
        sent := [];
        thrown := false;
        if |stack| > 0 {
          var first := stack[|stack| - 1].id;
          if first.None? {
            thrown := true;
            return;
          }
          lastId := first.value;
        }
        return;
      }
      sent, thrown := Announce(stack, strip);
    }

    /** The sending loop of processFile. */
    method Announce(stack: seq<Record>, strip: string -> string) returns (sent: seq<string>, thrown: bool)
      modifies this
      ensures lastModified == old(lastModified)
      ensures var r := SendPass(stack, old(lastId));
        lastId == r.lastId && thrown == r.thrown && sent == Notices(r.sent, strip)
    {
      sent := [];
      thrown := false;
      ghost var notices: seq<Record> := [];
      var i := 0;
      while i < |stack|
        invariant 0 <= i <= |stack| && lastModified == old(lastModified)
        invariant sent == Notices(notices, strip)
        invariant SendPass(stack, old(lastId)) == Continued(notices, SendPass(stack[i..], lastId))
      {
        SendFrom(stack, i, lastId);
        var m := stack[i];
        if m.id.None? {
          thrown := true;
          ContinuedNone(notices, lastId);
          return;
        }
        if m.id.value > lastId {
          if m.content.None? {
            thrown := true;
            ContinuedNone(notices, lastId);
            return;
          }
          NoticesSnoc(notices, m, strip);
          ContinuedOne(notices, m, SendPass(stack[i + 1..], m.id.value));
          sent := sent + [Notice(m, strip)];
          notices := notices + [m];
          lastId := m.id.value;
        }
        i := i + 1;
      }
      ContinuedNone(notices, lastId);
    }

    /**
     * One round of run(): a pass that sends happens only when the file has
     * changed since the last one.
     */
    method Poll(lines: seq<string>, modified: int, strip: string -> string) returns (sent: seq<string>, thrown: bool)
      modifies this
      ensures modified <= old(lastModified) ==> sent == [] && !thrown && lastId == old(lastId) && lastModified == old(lastModified)
      ensures modified > old(lastModified) ==> (
        var r := SendPass(Records(lines), old(lastId));
        lastModified == modified && lastId == r.lastId && thrown == r.thrown && sent == Notices(r.sent, strip))
    {
      if modified > lastModified {
        sent, thrown := ProcessFile(lines, modified, false, strip);
      } else {
        sent := [];
        thrown := false;
      }
    }

    /** handle: the motd file, each line followed by a newline, to "motd" alone. */
    method Handle(m: Message, motd: seq<string>) returns (reply: Option<string>)
      ensures reply == if MotdRequested(m) then Some(Lines(motd)) else None
    {
      if !MotdRequested(m) {
        return None;
      }
      var s := "";
      var i := 0;
      while i < |motd|
        invariant 0 <= i <= |motd|
        invariant s == Lines(motd[..i])
      {
        LinesStep(motd, i);
        s := s + motd[i] + "\n";
        i := i + 1;
      }
      assert motd[..i] == motd;
      return Some(s);
    }
  }

  lemma {:induction false} NoticesSnoc(a: seq<Record>, m: Record, strip: string -> string)
    ensures Notices(a + [m], strip) == Notices(a, strip) + [Notice(m, strip)]
    decreases |a|
  {
    if a == [] {
      assert [m] + [] == [m] && [m][1..] == [];
    } else {
      assert (a + [m])[0] == a[0] && (a + [m])[1..] == a[1..] + [m];
      NoticesSnoc(a[1..], m, strip);
    }
  }
}
