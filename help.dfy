/**
 * HelpService: a tree of help topics. Each node has a title, a body and
 * sub-topics kept by keyword in String.compareTo order; "help a b" walks
 * from the root to sub-topic a and then to its sub-topic b, and replies with
 * that node's text.
 */
module Help {
  import opened Strings
  import opened Tokens
  import opened Ordered
  import opened Irc

  const DOUBLE_EOL := "\n \n"
  const SUB_TOPICS := "Sub-Topics"
  const ROOT_TEXT := "This kitten comes equipped with a help module.\nFor more information, try 'help help', or one of the other help options below"
  const HELP_TEXT := "The help service uses a recursive tree structure, and allows any DoCitten module to add help information."
  const ABOUT_TEXT := "DoCitten was originally an irc bot for #doc, Imperial College Department of Computing's IRC channel\r\n \r\nDoCitten is from https://github.com/javajawa/DoCitten"

  /** One line of the sub-topic listing: "  <keyword>: <title>". */
  function TopicLine(e: (string, HelpInfo)): string {
    "  " + e.0 + ": " + e.1.title + "\n"
  }

  /** The strings of `ls` one after another. */
  function Joined(ls: seq<string>): string {
    if ls == [] then [] else ls[0] + Joined(ls[1..])
  }

  lemma {:induction false} JoinedAppend(a: seq<string>, b: seq<string>)
    ensures Joined(a + b) == Joined(a) + Joined(b)
  {
    if a == [] {
      assert a + b == b;
    } else {
      assert (a + b)[0] == a[0] && (a + b)[1..] == a[1..] + b;
      JoinedAppend(a[1..], b);
    }
  }

  /** The sub-topic listing, one line per child in key order. */
  function SubTopics(es: seq<(string, HelpInfo)>): string {
    Joined(TopicLines(es))
  }

  function TopicLines(es: seq<(string, HelpInfo)>): (ls: seq<string>)
    ensures |ls| == |es| && forall i :: 0 <= i < |es| ==> ls[i] == TopicLine(es[i])
  {
    if es == [] then [] else [TopicLine(es[0])] + TopicLines(es[1..])
  }

  /** One more child adds its line at the end of the listing. */
  lemma SubTopicsStep(es: seq<(string, HelpInfo)>, i: nat)
    requires i < |es|
    ensures SubTopics(es[..i + 1]) == SubTopics(es[..i]) + TopicLine(es[i])
  {
    var line := TopicLine(es[i]);
    JoinedAppend(TopicLines(es[..i]), [line]);
    assert TopicLines(es[..i + 1]) == TopicLines(es[..i]) + [line];
    assert Joined([line]) == line by {
      assert [line][1..] == [];
    }
  }

  /** The text toString gives a node with this title, content and children. */
  function Render(title: string, content: string, children: seq<(string, HelpInfo)>): (r: string)
    ensures StartsWith(r, title + DOUBLE_EOL + content)
    ensures children == [] ==> r == title + DOUBLE_EOL + content + "\n"
    ensures children != [] ==> r[|title + DOUBLE_EOL + content|..] == DOUBLE_EOL + SUB_TOPICS + "\n" + SubTopics(children)
  {
    var head := title + DOUBLE_EOL + content;
    var r := if children == [] then head + "\n" else head + (DOUBLE_EOL + SUB_TOPICS + "\n" + SubTopics(children));
    assert r[..|head|] == head;
    r
  }

  /** A text that starts with the title, a blank line and the content holds that blank line. */
  lemma BlankLineAfterTitle(t: string, title: string, content: string)
    requires StartsWith(t, title + DOUBLE_EOL + content)
    ensures Contains(t, DOUBLE_EOL)
  {
    var h := title + DOUBLE_EOL + content;
    assert t[|title|..|title| + |DOUBLE_EOL|] == h[|title|..|title| + |DOUBLE_EOL|];
    ContainsAt(t, DOUBLE_EOL, |title|);
  }

  /**
   * A child added under `k` is listed under `k` with its own title, and put
   * returned the child it replaced.
   */
  lemma AddedChildListed(m: seq<(string, HelpInfo)>, k: string, item: HelpInfo)
    requires KeysSorted(m)
    ensures (k, item) in PutEntry(m, k, item).entries
    ensures PutEntry(m, k, item).previous == Lookup(m, k)
  {
    PutPrevious(m, k, item);
    PutThenLookup(m, k, item, k);
  }

  class HelpInfo {
    const title: string
    const content: string
    /** The sub-topics, by keyword, in String.compareTo order of keywords. */
    var children: seq<(string, HelpInfo)>

    ghost predicate Valid()
      reads this
    {
      KeysSorted(children)
    }

    /** The text toString returns. */
    ghost function Text(): (t: string)
      reads this
      ensures StartsWith(t, title + DOUBLE_EOL + content)
      ensures children == [] ==> t == title + DOUBLE_EOL + content + "\n"
      ensures Contains(t, DOUBLE_EOL)
    {
      var t := Render(title, content, children);
      BlankLineAfterTitle(t, title, content);
      t
    }

    constructor (title: string, content: string)
      ensures Valid() && this.title == title && this.content == content && children == []
    {
      this.title := title;
      this.content := content;
      children := [];
    }

    /**
     * addChild: the keyword now leads to `item`, every other keyword keeps
     * its child, and the child it replaced, if any, is returned.
     */
    method AddChild(keyword: string, item: HelpInfo) returns (previous: Option<HelpInfo>)
      requires Valid()
      modifies this
      ensures Valid() && children == PutEntry(old(children), keyword, item).entries
      ensures previous == Lookup(old(children), keyword)
      ensures forall j :: Lookup(children, j) == if j == keyword then Some(item) else Lookup(old(children), j)
    {
      var put := PutEntry(children, keyword, item);
      forall j ensures Lookup(put.entries, j) == if j == keyword then Some(item) else Lookup(children, j) {
        PutThenLookup(children, keyword, item, j);
      }
      PutPrevious(children, keyword, item);
      children := put.entries;
      previous := put.previous;
    }

    /** toString */
    method ToString() returns (s: string)
      ensures s == Text()
    {
      s := title + DOUBLE_EOL + content;
      if children == [] {
        s := s + "\n";
        return;
      }
      var head := s + DOUBLE_EOL + SUB_TOPICS + "\n";
      s := head;
      var i := 0;
      while i < |children|
        invariant 0 <= i <= |children|
        invariant s == head + SubTopics(children[..i])
      {
        SubTopicsStep(children, i);
        s := s + TopicLine(children[i]);
        i := i + 1;
      }
      assert children[..i] == children;
    }
  }

  function Unknown(topic: string): string {
    "Unknown sub-topic: '" + topic + "'"
  }

  /** The topics named after "help": the space-separated tokens, in order. */
  function Topics(text: string): (ts: seq<string>)
    decreases |text|
  {
    if text == [] then [] else [NextToken(text, ' ').token] + Topics(NextToken(text, ' ').rest)
  }

  /**
   * The reply to a walk along `topics` from `node`: the first keyword that is
   * not a sub-topic of the node reached so far, or the text of the last node.
   */
  ghost function Answer(node: HelpInfo, topics: seq<string>): (r: string)
    reads *
    ensures (exists i :: 0 <= i < |topics| && r == Unknown(topics[i])) || Contains(r, DOUBLE_EOL)
    decreases |topics|
  {
    if topics == [] then node.Text()
    else match Lookup(node.children, topics[0])
      case None => Unknown(topics[0])
      case Some(child) => Answer(child, topics[1..])
  }

  /** Where the topic path starts, or None when the message is not a help request. */
  function HelpRequest(m: Message): Option<string> {
    var addressed := Consume(m.text, m.nick + ":");
    if !addressed.ok && m.channel.Some? then None
    else
      var asked := Consume(addressed.rest, "help");
      if !asked.ok then None else Some(asked.rest)
  }

  /** A channel message that does not begin "<nick>:" gets no help. */
  lemma UnaddressedIgnored(m: Message)
    requires m.channel.Some? && !StartsWith(m.text, m.nick + ":")
    ensures HelpRequest(m).None?
  {
  }

  /** A path whose first keyword is not a sub-topic is answered with that keyword. */
  lemma UnknownFirstTopic(node: HelpInfo, t: string, rest: seq<string>)
    requires Lookup(node.children, t).None?
    ensures Answer(node, [t] + rest) == Unknown(t)
  {
  }

  /**
   * A path that starts with a sub-topic, with one more keyword `k` on the
   * end, is walked by going to that sub-topic and walking the rest of the
   * path, with `k` still on the end, from there.
   */
  lemma {:induction false} AnswerAppend(node: HelpInfo, a: seq<string>, k: string)
    requires a != [] && Lookup(node.children, a[0]).Some?
    ensures Answer(node, a + [k]) == Answer(Lookup(node.children, a[0]).value, a[1..] + [k])
  {
    assert (a + [k])[0] == a[0] && (a + [k])[1..] == a[1..] + [k];
  }

  class HelpService {
    const root: HelpInfo

    /**
     * The default tree: a root "Help" with the sub-topics "about" and
     * "help", each a leaf.
     */
    constructor ()
      ensures fresh(root) && root.Valid() && root.title == "Help" && root.content == ROOT_TEXT
      ensures Keys(root.children) == ["about", "help"]
      ensures root.children[0].1.title == "About DoCitten" && root.children[1].1.title == "Help Service"
    {
      var r := new HelpInfo("Help", ROOT_TEXT);
      var h := new HelpInfo("Help Service", HELP_TEXT);
      var a := new HelpInfo("About DoCitten", ABOUT_TEXT);
      AboutBeforeHelp();
      AddTwo(r, "help", h, "about", a);
      root := r;
    }

    /** Two addChild calls on a node without children, the second keyword the smaller. */
    static method AddTwo(r: HelpInfo, k1: string, c1: HelpInfo, k2: string, c2: HelpInfo)
      requires r.Valid() && r.children == [] && Below(k2, k1)
      modifies r
      ensures r.Valid() && r.children == [(k2, c2), (k1, c1)]
    {
      var _ := r.AddChild(k1, c1);
      var _ := r.AddChild(k2, c2);
      TwoChildren(k1, k2, c1, c2);
    }

    /** HelpService(root): the tree given, or IllegalArgumentException (None) for null. */
    static method WithRoot(root: HelpInfo?) returns (s: Option<HelpService>)
      ensures s.None? <==> root == null
      ensures s.Some? ==> fresh(s.value) && s.value.root == root
    {
      if root == null {
        return None;
      }
      var service := new HelpService.Custom(root);
      return Some(service);
    }

    constructor Custom(root: HelpInfo)
      ensures this.root == root
    {
      this.root := root;
    }

    /** addHelp: root.addChild */
    method AddHelp(key: string, info: HelpInfo) returns (previous: Option<HelpInfo>)
      requires root.Valid()
      modifies root
      ensures root.Valid()
      ensures previous == Lookup(old(root.children), key)
      ensures forall j :: Lookup(root.children, j) == if j == key then Some(info) else Lookup(old(root.children), j)
    {
      previous := root.AddChild(key, info);
    }

    /**
     * handle: walk one sub-topic per token of the text after "help"; the
     * first unknown keyword ends the walk with an error reply, otherwise the
     * reply is the text of the node reached.
     */
    method Handle(m: Message) returns (reply: Option<string>)
      ensures HelpRequest(m).None? ==> reply.None?
      ensures HelpRequest(m).Some? ==> reply == Some(Answer(root, Topics(HelpRequest(m).value)))
    {
      var request := HelpRequest(m);
      if request.None? {
        return None;
      }
      var text := request.value;
      var currentNode := root;
      while text != []
        invariant Answer(root, Topics(request.value)) == Answer(currentNode, Topics(text))
        decreases |text|
      {
        var next := NextToken(text, ' ');
        var topic := next.token;
        assert Topics(text) == [topic] + Topics(next.rest);
        text := next.rest;
        var child := Lookup(currentNode.children, topic);
        if child.None? {
          return Some(Unknown(topic));
        }
        currentNode := child.value;
      }
      var s := currentNode.ToString();
      return Some(s);
    }
  }

  /** Two keywords added to an empty node come out in ascending order. */
  lemma TwoChildren(k1: string, k2: string, c1: HelpInfo, c2: HelpInfo)
    requires Below(k2, k1)
    ensures PutEntry(PutEntry([], k1, c1).entries, k2, c2).entries == [(k2, c2), (k1, c1)]
  {
    CompareZeroIffEqual(k2, k1);
  }

  lemma AboutBeforeHelp()
    ensures Below("about", "help")
  {
    assert "about"[0] == 'a' && "help"[0] == 'h';
  }
}
