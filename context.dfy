/**
 * ContextService: keeps the last ten lines said in each channel, including
 * the bot's own outbound lines, and replays them on request.
 */
module Context {
  import opened Strings
  import opened Tokens
  import opened Buffers
  import opened Irc

  const HISTORY_LENGTH: nat := 10
  const NO_CONTEXT := "No context available for this channel."

  /**
   * The recorded line "[<time> <who>] <message>"; `stamp` is the %tR
   * rendering of the clock at the moment of recording.
   */
  function Entry(stamp: string, who: string, message: string): string {
    "[" + stamp + " " + who + "] " + message
  }

  /** The number of newlines in `t`. */
  function Newlines(t: string): nat {
    if t == [] then 0 else (if t[0] == '\n' then 1 else 0) + Newlines(t[1..])
  }

  lemma {:induction false} NewlinesAppend(a: string, b: string)
    ensures Newlines(a + b) == Newlines(a) + Newlines(b)
  {
    if a != [] {
      NewlinesAppend(a[1..], b);
      assert (a + b)[1..] == a[1..] + b;
    } else {
      assert a + b == b;
    }
  }

  /** Lines without newlines of their own give a reply of exactly |s| lines. */
  lemma {:induction false} LinesCount(s: seq<string>)
    requires forall i :: 0 <= i < |s| ==> Newlines(s[i]) == 0
    ensures Newlines(Lines(s)) == |s|
  {
    if s != [] {
      LinesCount(s[1..]);
      NewlinesAppend(s[0], "\n");
      NewlinesAppend(s[0] + "\n", Lines(s[1..]));
      assert Newlines("\n") == 1 by {
        assert "\n"[1..] == [];
      }
    }
  }

  /** A new channel's history: ten empty lines. */
  function Blank(): (b: seq<string>)
    ensures |b| == HISTORY_LENGTH
  {
    seq(HISTORY_LENGTH, _ => "")
  }

  /** The histories after recording `line` in channel `ch`. */
  function Recorded(h: map<string, seq<string>>, ch: string, line: string): (r: map<string, seq<string>>)
    requires forall c :: c in h ==> |h[c]| == HISTORY_LENGTH
    ensures forall c :: c in r ==> |r[c]| == HISTORY_LENGTH
  {
    h[ch := Shift(if ch in h then h[ch] else Blank(), line)]
  }

  /** The histories after recording each of `lines` in channel `ch`. */
  function RecordedAll(h: map<string, seq<string>>, ch: string, lines: seq<string>): (r: map<string, seq<string>>)
    requires forall c :: c in h ==> |h[c]| == HISTORY_LENGTH
    ensures forall c :: c in r ==> |r[c]| == HISTORY_LENGTH
    decreases |lines|
  {
    if lines == [] then h else RecordedAll(Recorded(h, ch, lines[0]), ch, lines[1..])
  }

  /** The reply to "<nick>: context" in channel `ch`. */
  function ContextReply(h: map<string, seq<string>>, ch: string): (r: string)
    ensures ch !in h ==> r == NO_CONTEXT
    ensures ch in h && h[ch] != [] ==> StartsWith(r, h[ch][0] + "\n")
  {
    if ch in h then Lines(h[ch]) else NO_CONTEXT
  }

  lemma {:induction false} RecordedAllIsAddAll(h: map<string, seq<string>>, ch: string, lines: seq<string>)
    requires forall c :: c in h ==> |h[c]| == HISTORY_LENGTH
    requires lines != []
    ensures ch in RecordedAll(h, ch, lines)
    ensures RecordedAll(h, ch, lines)[ch] == AddAll(if ch in h then h[ch] else Blank(), lines)
    decreases |lines|
  {
    var h' := Recorded(h, ch, lines[0]);
    if |lines| > 1 {
      RecordedAllIsAddAll(h', ch, lines[1..]);
    }
  }

  /**
   * Once n <= 10 lines are said in a channel with no history, its context
   * is 10 - n empty lines followed by those n lines, oldest first.
   */
  lemma ContextOfNewChannel(h: map<string, seq<string>>, ch: string, lines: seq<string>)
    requires forall c :: c in h ==> |h[c]| == HISTORY_LENGTH
    requires ch !in h && 0 < |lines| <= HISTORY_LENGTH
    ensures ContextReply(RecordedAll(h, ch, lines), ch)
         == Lines(seq(HISTORY_LENGTH - |lines|, _ => "") + lines)
  {
    RecordedAllIsAddAll(h, ch, lines);
    FreshBufferAdds(HISTORY_LENGTH, "", lines);
    var c := AddAll(Blank(), lines);
    assert c == seq(HISTORY_LENGTH - |lines|, _ => "") + lines;
  }

  /** "<nick>: context", addressed to the bot. */
  predicate IsContextRequest(m: Message)
    ensures IsContextRequest(m) <==> StartsWith(m.text, m.nick + ": context")
  {
    Consume(m.text, m.nick + ": context").ok
  }

  /** Where filter records: targets that name a channel. */
  predicate IsChannel(target: string) {
    StartsWith(target, "#") || StartsWith(target, "&")
  }

  /** new ArrayBuffer<String>(10, "") followed by one add. */
  method StartBuffer(line: string) returns (buf: ArrayBuffer<string>)
    ensures fresh(buf) && fresh(buf.backing)
    ensures buf.Valid() && buf.length == HISTORY_LENGTH
    ensures buf.Contents() == Shift(Blank(), line)
  {
    buf := new ArrayBuffer<string>(HISTORY_LENGTH, "");
    var _ := buf.Add(line);
  }

  /** A buffer whose object and array are left alone keeps its contents. */
  twostate lemma Untouched(buf: ArrayBuffer<string>)
    requires old(buf.Valid()) && unchanged(buf, buf.backing)
    ensures buf.Valid() && buf.Contents() == old(buf.Contents())
  {
  }

  class ContextService {
    var channelHistories: map<string, ArrayBuffer<string>>
    /** Every channel's lines, oldest first. */
    ghost var history: map<string, seq<string>>
    ghost var Repr: set<object>
    /** The channel each buffer and backing array belongs to. */
    ghost var owner: map<object, string>

    ghost predicate Valid()
      reads this, Repr
    {
      (forall c :: c in history ==> c in channelHistories) &&
      forall c :: c in channelHistories ==> Tracks(c)
    }

    /** The buffer of channel `c` is its own, well formed, and holds its history. */
    ghost predicate Tracks(c: string)
      requires c in channelHistories
      reads this, Repr
    {
      var buf := channelHistories[c];
      c in history &&
      buf in Repr && buf.backing in Repr &&
      buf in owner && owner[buf] == c && buf.backing in owner && owner[buf.backing] == c &&
      buf.Valid() && buf.length == HISTORY_LENGTH && buf.Contents() == history[c]
    }

    constructor ()
      ensures Valid() && history == map[]
    {
      channelHistories := map[];
      history := map[];
      Repr := {};
      owner := map[];
    }

    /** Adds `line` to the buffer of `ch`, creating a blank one first if needed. */
    method Record(ch: string, line: string)
      requires Valid()
      modifies this, Repr
      ensures Valid() && fresh(Repr - old(Repr))
      ensures history == Recorded(old(history), ch, line)
    {
      if ch !in channelHistories {
        var buf := RecordNew(ch, line);
      } else {
        RecordExisting(ch, line);
      }
    }

    method RecordNew(ch: string, line: string) returns (buf: ArrayBuffer<string>)
      requires Valid() && ch !in channelHistories
      modifies this
      ensures Valid() && fresh(buf) && fresh(buf.backing) && Repr == old(Repr) + {buf, buf.backing}
      ensures history == old(history)[ch := Shift(Blank(), line)]
    {
      buf := StartBuffer(line);
      forall c | c in channelHistories
        ensures channelHistories[c].Valid() && channelHistories[c].Contents() == history[c]
        ensures channelHistories[c] as object != buf && channelHistories[c] as object != buf.backing
        ensures channelHistories[c].backing as object != buf && channelHistories[c].backing as object != buf.backing
      {
        Untouched(channelHistories[c]);
      }
      ghost var before := channelHistories;
      channelHistories := channelHistories[ch := buf];
      history := history[ch := buf.Contents()];
      Repr := Repr + {buf, buf.backing};
      owner := owner[buf := ch][buf.backing := ch];
      forall c | c in channelHistories ensures Tracks(c) {
        if c != ch {
          assert c in before && channelHistories[c] == before[c];
          assert owner[before[c]] == old(owner)[before[c]] && owner[before[c].backing] == old(owner)[before[c].backing];
        }
      }
    }

    method RecordExisting(ch: string, line: string)
      requires Valid() && ch in channelHistories
      modifies this, Repr
      ensures Valid() && Repr == old(Repr)
      ensures history == old(history)[ch := Shift(old(history)[ch], line)]
    {
      var buf := channelHistories[ch];
      ghost var b := buf.backing;
      forall c | c in channelHistories && c != ch
        ensures channelHistories[c] as object != buf && channelHistories[c] as object != b
        ensures channelHistories[c].backing as object != buf && channelHistories[c].backing as object != b
      {
        assert owner[channelHistories[c]] == c && owner[channelHistories[c].backing] == c;
      }
      var _ := buf.Add(line);
      history := history[ch := buf.Contents()];
      forall c | c in channelHistories ensures Tracks(c) {
        if c != ch {
          Untouched(channelHistories[c]);
        }
      }
    }

    /** The context reply: every slot of `hist`, oldest first, each followed by a newline. */
    method Replay(hist: ArrayBuffer<string>) returns (text: string)
      requires hist.Valid()
      ensures text == Lines(hist.Contents())
    {
      text := "";
      var n := hist.GetLength();
      var i := 0;
      while i < n
        invariant 0 <= i <= n == |hist.Contents()|
        invariant text == Lines(hist.Contents()[..i])
      {
        var item := hist.Get(i);
        LinesStep(hist.Contents(), i);
        text := text + item.value + "\n";
        i := i + 1;
      }
      assert hist.Contents()[..n] == hist.Contents();
    }

    /**
     * handle: a channel message is recorded unless it is "<nick>: context",
     * which is answered with the channel's history and not recorded.
     * Private messages (no channel) are ignored.
     */
    method Handle(m: Message, stamp: string) returns (reply: Option<string>)
      requires Valid()
      modifies this, Repr
      ensures Valid() && fresh(Repr - old(Repr))
      ensures m.channel.None? ==> reply.None? && history == old(history)
      ensures m.channel.Some? && !IsContextRequest(m) ==>
        reply.None? && history == Recorded(old(history), m.channel.value, Entry(stamp, m.sender, m.text))
      ensures m.channel.Some? && IsContextRequest(m) ==>
        history == old(history) && reply == Some(ContextReply(history, m.channel.value))
    {
      if m.channel.None? {
        return None;
      }
      var ch := m.channel.value;
      if !IsContextRequest(m) {
        Record(ch, Entry(stamp, m.sender, m.text));
        return None;
      }
      var text := ContextOf(ch);
      reply := Some(text);
    }

    /** The reply to a context request in channel `ch`. */
    method ContextOf(ch: string) returns (text: string)
      requires Valid()
      ensures text == ContextReply(history, ch)
    {
      if ch in channelHistories {
        assert Tracks(ch);
        text := Replay(channelHistories[ch]);
      } else {
        text := NO_CONTEXT;
      }
    }

    /**
     * filter: lines the bot sends to a channel are recorded under the bot's
     * nick; the message always passes through unchanged.
     */
    method Filter(m: Outbound, stamp: string) returns (r: Outbound)
      requires Valid()
      modifies this, Repr
      ensures Valid() && fresh(Repr - old(Repr))
      ensures r == m
      ensures IsChannel(m.target) ==> history == Recorded(old(history), m.target, Entry(stamp, m.nick, m.text))
      ensures !IsChannel(m.target) ==> history == old(history)
    {
      if IsChannel(m.target) {
        Record(m.target, Entry(stamp, m.nick, m.text));
      }
      r := m;
    }
  }
}
