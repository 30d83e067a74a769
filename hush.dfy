/**
 * HushService: "<nick>: hush" in a channel, or "hush" in a private message,
 * stops the bot's messages to that channel or that person; "speak" undoes a
 * channel hush. Outbound messages to a hushed target are dropped.
 */
module Hush {
  import opened Strings
  import opened Tokens
  import opened Irc

  /** String.matches(word + "!*"): the word followed by nothing but '!'s. */
  predicate IsCommand(t: string, word: string) {
    StartsWith(t, word) && forall i :: |word| <= i < |t| ==> t[i] == '!'
  }

  /** The text left once the bot's nick and then a colon are consumed. */
  function Addressed(m: Message): (r: string)
    ensures |r| <= |m.text|
  {
    Consume(Consume(m.text, m.nick).rest, ":").rest
  }

  /** Set.remove with an argument that may be null. */
  function RemoveTarget(h: set<string>, t: Option<string>): (r: set<string>)
    ensures forall x :: x in r <==> x in h && t != Some(x)
  {
    if t.Some? then h - {t.value} else h
  }

  /** What a message asks of the service. */
  datatype Request = HushTarget(who: string) | SpeakTarget(target: Option<string>) | NoRequest

  /** The request in `m`; `speak` names the message's channel, null in a private message. */
  function RequestOf(m: Message): (r: Request)
    ensures r.HushTarget? ==> r.who == if m.channel.Some? then m.channel.value else m.sender
    ensures r.SpeakTarget? ==> r.target == m.channel
  {
    var cmd := if m.channel.Some? then Addressed(m) else m.text;
    if m.channel.Some? && !StartsWith(m.text, m.nick) then NoRequest
    else if IsCommand(cmd, "hush") then HushTarget(if m.channel.Some? then m.channel.value else m.sender)
    else if IsCommand(cmd, "speak") then SpeakTarget(m.channel)
    else NoRequest
  }

  function Apply(h: set<string>, r: Request): set<string> {
    match r
    case HushTarget(t) => h + {t}
    case SpeakTarget(t) => RemoveTarget(h, t)
    case NoRequest => h
  }

  /** The hushed targets after `m` is handled. */
  function HushAfter(h: set<string>, m: Message): (r: set<string>)
    ensures var t := if m.channel.Some? then m.channel.value else m.sender;
      r == h || r == h + {t} || r == h - {t}
  {
    Apply(h, RequestOf(m))
  }

  /** Handling the same message twice is the same as handling it once. */
  lemma HushIdempotent(h: set<string>, m: Message)
    ensures HushAfter(HushAfter(h, m), m) == HushAfter(h, m)
  {
  }

  /** Only the channel or the sender of the message can change state. */
  lemma HushChangesOnlyItsTarget(h: set<string>, m: Message, x: string)
    requires Some(x) != m.channel && x != m.sender
    ensures x in HushAfter(h, m) <==> x in h
  {
  }

  /** A channel message not addressed to the bot changes nothing. */
  lemma UnaddressedIgnored(h: set<string>, m: Message)
    requires m.channel.Some? && !StartsWith(m.text, m.nick)
    ensures HushAfter(h, m) == h
  {
  }

  /** The command after "<nick>: " is what is left once the nick and the colon are consumed. */
  lemma AddressedCommand(m: Message, w: string)
    requires m.text == m.nick + ": " + w && w != [] && !IsSpace(w[0])
    ensures StartsWith(m.text, m.nick) && Addressed(m) == w
  {
    var rest := " " + w;
    var after := ":" + rest;
    assert Consume(m.text, m.nick) == Consumed(true, after) by {
      assert m.text == m.nick + after;
      ConsumePrefix(m.nick, after);
      assert after[0] == ':';
    }
    assert Consume(after, ":").rest == w by {
      ConsumePrefix(":", rest);
      SkipOneSpace(w);
    }
  }

  /** "speak!*" is never also "hush!*". */
  lemma SpeakIsNotHush(w: string)
    requires IsCommand(w, "speak")
    ensures !IsCommand(w, "hush")
  {
    assert w[0] == "speak"[0] == 's';
  }

  /** "<nick>: hush", with any number of '!'s, in a channel hushes that channel. */
  lemma ChannelHush(h: set<string>, m: Message, w: string)
    requires m.channel.Some? && m.text == m.nick + ": " + w
    requires IsCommand(w, "hush")
    ensures HushAfter(h, m) == h + {m.channel.value}
  {
    AddressedCommand(m, w);
  }

  /** "<nick>: speak", with any number of '!'s, in a channel un-hushes that channel. */
  lemma ChannelSpeak(h: set<string>, m: Message, w: string)
    requires m.channel.Some? && m.text == m.nick + ": " + w
    requires IsCommand(w, "speak")
    ensures HushAfter(h, m) == h - {m.channel.value}
  {
    AddressedCommand(m, w);
    SpeakIsNotHush(w);
  }

  /** "hush", with any number of '!'s, in a private message hushes the sender. */
  lemma PrivateHush(h: set<string>, m: Message)
    requires m.channel.None? && IsCommand(m.text, "hush")
    ensures HushAfter(h, m) == h + {m.sender}
  {
  }

  /**
   * A message whose command is neither "hush!*" nor "speak!*" changes
   * nothing: in a channel the command is what follows "<nick>:", in a
   * private message it is the whole text.
   */
  lemma OtherCommandIgnored(h: set<string>, m: Message)
    requires var cmd := if m.channel.Some? then Addressed(m) else m.text;
      !IsCommand(cmd, "hush") && !IsCommand(cmd, "speak")
    ensures HushAfter(h, m) == h
  {
  }

  /** "<nick>: <w>" in a channel, for any other word w, changes nothing. */
  lemma ChannelOtherWord(h: set<string>, m: Message, w: string)
    requires m.channel.Some? && m.text == m.nick + ": " + w && w != [] && !IsSpace(w[0])
    requires !IsCommand(w, "hush") && !IsCommand(w, "speak")
    ensures HushAfter(h, m) == h
  {
    AddressedCommand(m, w);
  }

  /**
   * A private "speak" removes the message's channel, which is null, so a
   * person who hushed the bot privately stays hushed.
   */
  lemma PrivateSpeakKeepsSender(h: set<string>, m: Message)
    requires m.channel.None? && IsCommand(m.text, "speak")
    ensures HushAfter(h, m) == h
  {
    SpeakIsNotHush(m.text);
  }

  class HushService {
    var hushedTargets: set<string>

    constructor ()
      ensures hushedTargets == {}
    {
      hushedTargets := {};
    }

    /** handle */
    method Handle(m: Message)
      modifies this
      ensures hushedTargets == HushAfter(old(hushedTargets), m)
    {
      var text := m.text;
      if m.channel.Some? {
        if !Consume(text, m.nick).ok {
          return;
        }
        text := Consume(text, m.nick).rest;
        text := Consume(text, ":").rest;
        if IsCommand(text, "hush") {
          hushedTargets := hushedTargets + {m.channel.value};
        } else if IsCommand(text, "speak") {
          hushedTargets := RemoveTarget(hushedTargets, m.channel);
        }
      } else {
        if IsCommand(text, "hush") {
          hushedTargets := hushedTargets + {m.sender};
        } else if IsCommand(text, "speak") {
          hushedTargets := RemoveTarget(hushedTargets, m.channel);
        }
      }
    }

    /** filter: None (Java's null) exactly for a hushed target; otherwise the same message. */
    method Filter(o: Outbound) returns (r: Option<Outbound>)
      ensures r.None? <==> o.target in hushedTargets
      ensures r.Some? ==> r.value == o
    {
      if o.target in hushedTargets {
        return None;
      }
      return Some(o);
    }
  }
}
