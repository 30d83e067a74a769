/**
 * ReminderService: a per-user to-do list. "<nick>: reminder note <text>"
 * stores a note, "reminder list" numbers the sender's entries from 1 in the
 * order of the service's comparator, and "reminder remove <n>" deletes the
 * n-th of them. Timed reminders share the ordering but cannot yet be
 * created ("reminder add" answers that it is not implemented).
 */
module Reminders {
  import opened Strings
  import opened Tokens
  import opened Irc

  const SERVICE_NAME := "reminder"
  const NOT_YET := "Not yet implemented (sorry!)"
  const UNKNOWN := "Unknown Command"
  const SEE_HELP := "See 'help reminder'"
  const NOTE_CREATED := "Note Created"
  const NONE_ACTIVE := "You have no active reminders."
  const USAGE := "The remove function takes a single, numberic parameter.\r\nSee 'help reminder' for more information"
  const NOTHING_TO_REMOVE := "You have no reminders to remove"
  const REMOVED := "Reminder removed."

  /**
   * A note, or a reminder to be sent at `sendTimestamp`; `setTimestamp` is
   * the clock reading, in milliseconds, when the entry was made.
   */
  datatype Item =
    | Note(nick: string, data: string, setTimestamp: int)
    | Reminder(sendTimestamp: int, nick: string, data: string, setTimestamp: int)

  /** Long.compareTo */
  function CompareLong(a: int, b: int): (r: int)
    ensures r < 0 <==> a < b
    ensures r == 0 <==> a == b
    ensures -1 <= r <= 1
  {
    if a < b then -1 else if a == b then 0 else 1
  }

  /**
   * reminderOrderer: notes come before reminders and are ordered by creation
   * time; reminders are ordered by send time, then by creation time. The
   * comparator's shortcut for an entry compared with itself is not written
   * out: the comparisons below already give 0 there (OrderReflexive).
   */
  function Order(a: Item, b: Item): (r: int)
    ensures -1 <= r <= 1
  {
    if a.Note? then
      if b.Note? then CompareLong(a.setTimestamp, b.setTimestamp) else -1
    else if b.Note? then 1
    else if a.sendTimestamp == b.sendTimestamp then CompareLong(a.setTimestamp, b.setTimestamp)
    else CompareLong(a.sendTimestamp, b.sendTimestamp)
  }

  /**
   * The position an entry takes in the ordering, written independently of
   * the comparator: kind first (notes 0, reminders 1), then send time (0 for
   * a note), then creation time.
   */
  function Rank(a: Item): (int, int, int) {
    match a
    case Note(_, _, made) => (0, 0, made)
    case Reminder(send, _, _, made) => (1, send, made)
  }

  predicate RankBelow(x: (int, int, int), y: (int, int, int)) {
    x.0 < y.0 || (x.0 == y.0 && (x.1 < y.1 || (x.1 == y.1 && x.2 < y.2)))
  }

  /** The comparator is the lexicographic order of ranks. */
  lemma OrderIsRankOrder(a: Item, b: Item)
    ensures Order(a, b) < 0 <==> RankBelow(Rank(a), Rank(b))
    ensures Order(a, b) == 0 <==> Rank(a) == Rank(b)
    ensures Order(a, b) > 0 <==> RankBelow(Rank(b), Rank(a))
  {
  }

  /** The same entry compares equal to itself. */
  lemma OrderReflexive(a: Item)
    ensures Order(a, a) == 0
  {
  }

  /** Comparator contract: sgn(compare(a, b)) == -sgn(compare(b, a)). */
  lemma OrderAntisymmetric(a: Item, b: Item)
    ensures Order(a, b) == -Order(b, a)
  {
    OrderIsRankOrder(a, b);
    OrderIsRankOrder(b, a);
  }

  /** Comparator contract: the order is transitive. */
  lemma OrderTransitive(a: Item, b: Item, c: Item)
    requires Order(a, b) < 0 && Order(b, c) < 0
    ensures Order(a, c) < 0
  {
    OrderIsRankOrder(a, b);
    OrderIsRankOrder(b, c);
    OrderIsRankOrder(a, c);
  }

  /**
   * Every note sorts before every reminder, although the comparator's
   * documentation says that notes sort to the bottom of the list.
   */
  lemma NotesFirst(n: Item, r: Item)
    requires n.Note? && r.Reminder?
    ensures Order(n, r) < 0 && Order(r, n) > 0
  {
  }

  /** Two notes made in the same millisecond compare equal. */
  lemma SameMillisecondNotesCollide(a: Item, b: Item)
    requires a.Note? && b.Note? && a.setTimestamp == b.setTimestamp
    ensures Order(a, b) == 0
  {
  }

  // ---------------------------------------------------------------------
  // TreeSet under reminderOrderer, as a strictly ascending sequence
  // ---------------------------------------------------------------------

  predicate Sorted(s: seq<Item>) {
    forall i, j :: 0 <= i < j < |s| ==> Order(s[i], s[j]) < 0
  }

  /** Some element of `s` compares equal to `x`. */
  predicate Collides(s: seq<Item>, x: Item) {
    exists i :: 0 <= i < |s| && Order(x, s[i]) == 0
  }

  /** TreeSet.add: `x` goes in its place, unless an element compares equal to it. */
  function Insert(s: seq<Item>, x: Item): (r: seq<Item>)
    ensures forall y :: y in r ==> y == x || y in s
    decreases |s|
  {
    if s == [] then [x]
    else
      var c := Order(x, s[0]);
      if c == 0 then s
      else if c < 0 then [x] + s
      else [s[0]] + Insert(s[1..], x)
  }

  /** An element below the least element of a sorted set is below all of it. */
  lemma BelowHead(s: seq<Item>, x: Item)
    requires Sorted(s) && s != [] && Order(x, s[0]) < 0
    ensures forall i :: 0 <= i < |s| ==> Order(x, s[i]) < 0
    ensures !Collides(s, x)
  {
    forall i | 0 < i < |s| ensures Order(x, s[i]) < 0 {
      OrderTransitive(x, s[0], s[i]);
    }
  }

  /** Past a head that does not compare equal, collisions are in the tail. */
  lemma CollidesTail(s: seq<Item>, x: Item)
    requires s != [] && Order(x, s[0]) != 0
    ensures Collides(s, x) <==> Collides(s[1..], x)
  {
    if Collides(s, x) {
      var i :| 0 <= i < |s| && Order(x, s[i]) == 0;
      assert Order(x, s[1..][i - 1]) == 0;
    }
    if Collides(s[1..], x) {
      var i :| 0 <= i < |s[1..]| && Order(x, s[1..][i]) == 0;
      assert Order(x, s[i + 1]) == 0;
    }
  }

  /** add keeps the set sorted. */
  lemma {:induction false} InsertSorted(s: seq<Item>, x: Item)
    requires Sorted(s)
    ensures Sorted(Insert(s, x))
    decreases |s|
  {
    if s != [] {
      var c := Order(x, s[0]);
      if c < 0 {
        BelowHead(s, x);
        var r := [x] + s;
        assert forall i :: 0 < i < |r| ==> r[i] == s[i - 1];
      } else if c > 0 {
        var t := s[1..];
        InsertSorted(t, x);
        var r := Insert(s, x);
        assert r == [s[0]] + Insert(t, x);
        OrderAntisymmetric(x, s[0]);
        forall i | 0 < i < |r| ensures Order(s[0], r[i]) < 0 {
          assert r[i] in Insert(t, x);
        }
      }
    }
  }

  /** add leaves the set alone when an element collides with `x`. */
  lemma {:induction false} InsertCollision(s: seq<Item>, x: Item)
    requires Sorted(s) && Collides(s, x)
    ensures Insert(s, x) == s
    decreases |s|
  {
    var c := Order(x, s[0]);
    if c < 0 {
      BelowHead(s, x);
    } else if c > 0 {
      CollidesTail(s, x);
      InsertCollision(s[1..], x);
    }
  }

  /** add adds `x` when no element collides with it. */
  lemma {:induction false} InsertAdds(s: seq<Item>, x: Item)
    requires !Collides(s, x)
    ensures multiset(Insert(s, x)) == multiset(s) + multiset{x}
    decreases |s|
  {
    if s != [] {
      assert Order(x, s[0]) != 0;
      if Order(x, s[0]) > 0 {
        var t := s[1..];
        CollidesTail(s, x);
        InsertAdds(t, x);
        assert Insert(s, x) == [s[0]] + Insert(t, x);
        assert s == [s[0]] + t;
      }
    }
  }

  /** TreeSet.remove: the elements that do not compare equal to `x`. */
  function Without(s: seq<Item>, x: Item): (r: seq<Item>)
    ensures |r| <= |s|
    ensures forall y :: y in r ==> y in s
  {
    if s == [] then []
    else (if Order(s[0], x) == 0 then [] else [s[0]]) + Without(s[1..], x)
  }

  lemma SortedTail(s: seq<Item>)
    requires Sorted(s) && s != []
    ensures Sorted(s[1..])
  {
    forall i, j | 0 <= i < j < |s| - 1 ensures Order(s[1..][i], s[1..][j]) < 0 {
      assert s[1..][i] == s[i + 1] && s[1..][j] == s[j + 1];
    }
  }

  /** In a sorted set, removing the k-th element removes it and nothing else. */
  lemma {:induction false} WithoutIndexed(s: seq<Item>, k: nat)
    requires Sorted(s) && k < |s|
    ensures Without(s, s[k]) == s[..k] + s[k + 1..]
    decreases |s|
  {
    var t := s[1..];
    SortedTail(s);
    if k == 0 {
      WithoutNone(t, s[0]);
      assert s[..0] + s[1..] == t;
    } else {
      WithoutKeepsHead(s, k);
      assert t[k - 1] == s[k];
      WithoutIndexed(t, k - 1);
      ConsSplice(s, k);
    }
  }

  /** Removing a later element of a sorted set keeps its head. */
  lemma WithoutKeepsHead(s: seq<Item>, k: nat)
    requires Sorted(s) && 0 < k < |s|
    ensures Without(s, s[k]) == [s[0]] + Without(s[1..], s[k])
  {
    assert Order(s[0], s[k]) < 0;
  }

  lemma ConsSplice(s: seq<Item>, k: nat)
    requires 0 < k < |s|
    ensures [s[0]] + (s[1..][..k - 1] + s[1..][k..]) == s[..k] + s[k + 1..]
  {
    assert s[1..][..k - 1] == s[1..k] && s[1..][k..] == s[k + 1..];
  }

  /** Removing an element that sorts below the whole set changes nothing. */
  lemma {:induction false} WithoutNone(s: seq<Item>, x: Item)
    requires forall i :: 0 <= i < |s| ==> Order(x, s[i]) < 0
    ensures Without(s, x) == s
    decreases |s|
  {
    if s != [] {
      OrderAntisymmetric(x, s[0]);
      WithoutNone(s[1..], x);
    }
  }

  /** Removal keeps a set sorted. */
  lemma {:induction false} WithoutSorted(s: seq<Item>, x: Item)
    requires Sorted(s)
    ensures Sorted(Without(s, x))
    decreases |s|
  {
    if s != [] {
      WithoutSorted(s[1..], x);
      var w := Without(s[1..], x);
      forall y | y in w ensures Order(s[0], y) < 0 {
        var i :| 0 <= i < |s[1..]| && s[1..][i] == y;
        assert s[i + 1] == y;
      }
    }
  }

  // ---------------------------------------------------------------------
  // Replies
  // ---------------------------------------------------------------------

  /**
   * The entry's toString: a note is its text; a reminder is
   * "[<date> <time>] <text>", where `calendar` renders a clock reading as
   * "%tD %tR" does.
   */
  function Text(r: Item, calendar: int -> string): (t: string)
    ensures r.Note? ==> t == r.data
    ensures r.Reminder? ==> |r.data| + 3 <= |t| && t[0] == '['
  {
    match r
    case Note(_, data, _) => data
    case Reminder(send, _, data, _) => "[" + calendar(send) + "] " + data
  }

  /** String.format("%3d: %s", n, text) */
  function Line(n: int, text: string): (r: string)
    ensures |text| + 5 <= |r|
  {
    PadLeft(IntToString(n), 3) + ": " + text
  }

  /** The list header: whose entries, and how many. */
  function Header(sender: string, n: int): (r: string)
    ensures var p := "Active Reminders for " + sender + " (";
      |p| + 2 < |r| && r[..|p|] == p && r[|r| - 2..] == "):" &&
      (IsInt(n) ==> ParseInt(r[|p|..|r| - 2]) == Some(n))
  {
    var p := "Active Reminders for " + sender + " (";
    var r := p + IntToString(n) + "):";
    assert r[|p|..|r| - 2] == IntToString(n);
    assert IsInt(n) ==> ParseInt(IntToString(n)) == Some(n) by {
      if IsInt(n) {
        ParseIntToString(n);
      }
    }
    r
  }

  /** Line k (from 1) shows the k-th entry of `s`. */
  function Numbered(s: seq<Item>, calendar: int -> string): (r: seq<string>)
    ensures |r| == |s|
  {
    seq(|s|, i requires 0 <= i < |s| => Line(i + 1, Text(s[i], calendar)))
  }

  /** An entry's text ends with its data. */
  lemma TextEndsWithData(r: Item, calendar: int -> string)
    ensures var t := Text(r, calendar); |r.data| <= |t| && t[|t| - |r.data|..] == r.data
  {
    if r.Reminder? {
      var p := "[" + calendar(r.sendTimestamp) + "] ";
      assert Text(r, calendar) == p + r.data;
    }
  }

  /** A numbered line ends with ": " and the text. */
  lemma LineEndsWithText(n: int, text: string)
    ensures var l := Line(n, text); l[|l| - |text| - 2..] == ": " + text
  {
    var p := PadLeft(IntToString(n), 3);
    assert Line(n, text) == p + (": " + text);
  }

  /** The list reply for the entries `s` of `sender`. */
  function ListReplies(sender: string, s: seq<Item>, calendar: int -> string): (r: seq<string>)
    ensures |r| == if s == [] then 1 else |s| + 1
  {
    if s == [] then [NONE_ACTIVE] else [Header(sender, |s|)] + Numbered(s, calendar)
  }

  /** The sender's entries after a note is added. */
  function NoteAdded(users: map<string, seq<Item>>, sender: string, data: string, now: int): (r: map<string, seq<Item>>)
    ensures r.Keys == users.Keys + {sender}
    ensures forall u :: u in users && u != sender ==> r[u] == users[u]
  {
    users[sender := Insert(if sender in users then users[sender] else [], Note(sender, data, now))]
  }

  /** The first note of a user is listed as entry 1 with its text. */
  lemma FirstNoteListed(users: map<string, seq<Item>>, sender: string, data: string, now: int, calendar: int -> string)
    requires sender !in users
    ensures ListReplies(sender, NoteAdded(users, sender, data, now)[sender], calendar)
         == ["Active Reminders for " + sender + " (1):", "  1: " + data]
  {
    var s := NoteAdded(users, sender, data, now)[sender];
    assert s == [Note(sender, data, now)];
    assert IntToString(1) == "1";
    assert PadLeft("1", 3) == "  1";
    assert Numbered(s, calendar) == [Line(1, data)];
    assert Line(1, data) == "  1" + ": " + data == "  1: " + data;
    assert Header(sender, 1) == "Active Reminders for " + sender + " (1):";
  }

  /** Two notes made at different times are listed in the order they were made. */
  lemma NotesListedOldestFirst(sender: string, d1: string, d2: string, t1: int, t2: int)
    requires t1 < t2
    ensures NoteAdded(NoteAdded(map[], sender, d1, t1), sender, d2, t2)[sender]
         == [Note(sender, d1, t1), Note(sender, d2, t2)]
  {
    var n1 := Note(sender, d1, t1);
    var n2 := Note(sender, d2, t2);
    assert NoteAdded(map[], sender, d1, t1)[sender] == [n1];
    assert Order(n2, n1) > 0;
    assert Insert([n1], n2) == [n1] + Insert([], n2);
  }

  /** A second note made in the same millisecond as the first is lost. */
  lemma SameMillisecondNoteLost(sender: string, d1: string, d2: string, t: int)
    ensures NoteAdded(NoteAdded(map[], sender, d1, t), sender, d2, t)[sender] == [Note(sender, d1, t)]
  {
    var n1 := Note(sender, d1, t);
    assert NoteAdded(map[], sender, d1, t)[sender] == [n1];
  }

  /** The outcome of a remove: the new state and the one reply. */
  datatype Removal = Removal(users: map<string, seq<Item>>, global: seq<Item>, reply: string)

  function OutOfRange(index: int): string {
    "Index " + IntToString(index) + " out of range - see 'reminder list'"
  }

  /** remove(m, data) by `sender`: the error replies, or the index-th entry deleted. */
  function Removed(users: map<string, seq<Item>>, global: seq<Item>, sender: string, data: string): (r: Removal)
    ensures r.reply != REMOVED ==> r.users == users && r.global == global
  {
    var index := ParseInt(data);
    if index.None? then Removal(users, global, USAGE)
    else if sender !in users then Removal(users, global, NOTHING_TO_REMOVE)
    else
      var s := users[sender];
      if index.value < 1 || index.value > |s| then Removal(users, global, OutOfRange(index.value))
      else
        Deleted(users, global, sender, s[index.value - 1])
  }

  /** The state once entry `x` of `sender` is removed; a reminder also leaves the global set. */
  function Deleted(users: map<string, seq<Item>>, global: seq<Item>, sender: string, x: Item): Removal
    requires sender in users
  {
    Removal(users[sender := Without(users[sender], x)], if x.Reminder? then Without(global, x) else global, REMOVED)
  }

  /** Line k of the list reply, for 1 <= k <= n, shows the k-th entry. */
  lemma ListedAt(sender: string, s: seq<Item>, k: int, calendar: int -> string)
    requires 1 <= k <= |s|
    ensures ListReplies(sender, s, calendar)[k] == Line(k, Text(s[k - 1], calendar))
  {
  }

  /**
   * "remove <k>" deletes exactly the entry "list" shows as number k, and no
   * other user's entries change.
   */
  lemma RemoveListedEntry(users: map<string, seq<Item>>, global: seq<Item>, sender: string, k: int, calendar: int -> string)
    requires sender in users && Sorted(users[sender]) && 1 <= k <= |users[sender]| && IsInt(k)
    ensures var s := users[sender];
      var r := Removed(users, global, sender, IntToString(k));
      ListReplies(sender, s, calendar)[k] == Line(k, Text(s[k - 1], calendar)) &&
      r.reply == REMOVED && r.users == users[sender := s[..k - 1] + s[k..]]
  {
    var s := users[sender];
    ListedAt(sender, s, k, calendar);
    ParseIntToString(k);
    assert Removed(users, global, sender, IntToString(k)) == Deleted(users, global, sender, s[k - 1]);
    WithoutIndexed(s, k - 1);
  }

  // ---------------------------------------------------------------------
  // Commands
  // ---------------------------------------------------------------------

  datatype Command = AddCmd | RemoveCmd | ListCmd | NoteCmd | HelpCmd | BadCmd

  /** Commands.valueOf, with the exception mapped to badcmd. */
  function CommandNamed(t: string): (c: Command)
    ensures c == BadCmd <==> t !in {"add", "remove", "list", "note", "help"}
  {
    if t == "add" then AddCmd
    else if t == "remove" then RemoveCmd
    else if t == "list" then ListCmd
    else if t == "note" then NoteCmd
    else if t == "help" then HelpCmd
    else BadCmd
  }

  /** What handle makes of a message: nothing, or a command and its argument text. */
  datatype Parsed = Ignored | Invoked(cmd: Command, arg: string)

  /**
   * In a channel the message must begin "<nick>:"; in private that prefix is
   * optional. Then "reminder" must follow, and the next space-separated
   * token names the command. With no token left the command is badcmd.
   */
  function Parse(m: Message): (p: Parsed)
    ensures p.Invoked? ==> |p.arg| < |m.text|
  {
    var addressed := Consume(m.text, m.nick + ":");
    if !addressed.ok && m.channel.Some? then Ignored
    else
      var named := Consume(addressed.rest, SERVICE_NAME);
      if !named.ok then Ignored
      else if named.rest == [] then Invoked(BadCmd, [])
      else
        var t := NextToken(named.rest, ' ');
        Invoked(CommandNamed(t.token), t.rest)
  }

  /**
   * "<nick>: <k>" followed by `w`, where k is the service name and w is
   * empty or starts with whitespace: the command is read from w.
   */
  lemma ParseAddressed(m: Message, w: string)
    requires m.text == m.nick + ": " + SERVICE_NAME + w
    requires w == [] || IsSpace(w[0])
    ensures var c := SkipSpaces(w);
      Parse(m) == if c == [] then Invoked(BadCmd, [])
        else Invoked(CommandNamed(NextToken(c, ' ').token), NextToken(c, ' ').rest)
  {
    var named := SERVICE_NAME + w;
    assert Consume(m.text, m.nick + ":") == Consumed(true, named) by {
      var after := " " + named;
      assert m.text == m.nick + ":" + after;
      ConsumePrefix(m.nick + ":", after);
      WordStart(SERVICE_NAME, w);
      SkipOneSpace(named);
    }
    assert Consume(named, SERVICE_NAME) == Consumed(true, SkipSpaces(w)) by {
      ConsumePrefix(SERVICE_NAME, w);
    }
  }

  /** A word that does not start with whitespace still does not once text follows it. */
  lemma WordStart(k: string, w: string)
    requires k == SERVICE_NAME
    ensures k + w != [] && !IsSpace((k + w)[0])
  {
    assert (k + w)[0] == k[0] == 'r';
  }

  /** "<nick>: reminder <w>" runs the command named by the first token of w. */
  lemma AddressedReminder(m: Message, w: string)
    requires m.text == m.nick + ": reminder " + w && w != [] && !IsSpace(w[0])
    ensures Parse(m) == Invoked(CommandNamed(NextToken(w, ' ').token), NextToken(w, ' ').rest)
  {
    var rest := " " + w;
    assert m.text == m.nick + ": " + SERVICE_NAME + rest;
    ParseAddressed(m, rest);
    assert rest[1..] == w;
  }

  /** "<nick>: reminder" with nothing after it is an unknown command. */
  lemma BareReminder(m: Message)
    requires m.text == m.nick + ": reminder"
    ensures Parse(m) == Invoked(BadCmd, [])
  {
    assert m.text == m.nick + ": " + SERVICE_NAME + [];
    ParseAddressed(m, []);
  }

  /** A channel message that does not begin "<nick>:" is ignored. */
  lemma UnaddressedIgnored(m: Message)
    requires m.channel.Some? && !StartsWith(m.text, m.nick + ":")
    ensures Parse(m) == Ignored
  {
  }

  class ReminderService {
    /** Each user's notes and reminders, in comparator order. */
    var userReminders: map<string, seq<Item>>
    /** Every pending reminder, ordered by when it is due. */
    var globalReminders: seq<Item>

    ghost predicate Valid()
      reads this
    {
      (forall u :: u in userReminders ==> Sorted(userReminders[u])) &&
      Sorted(globalReminders) &&
      forall x :: x in globalReminders ==> x.Reminder?
    }

    constructor ()
      ensures Valid() && userReminders == map[] && globalReminders == []
    {
      userReminders := map[];
      globalReminders := [];
    }

    /** shutdown: the pending reminders are dropped; users' lists stay. */
    method Shutdown()
      requires Valid()
      modifies this
      ensures Valid() && globalReminders == [] && userReminders == old(userReminders)
    {
      globalReminders := [];
    }

    /** note: the note joins the sender's set, which is created if absent. */
    method AddNote(sender: string, data: string, now: int) returns (reply: string)
      requires Valid()
      modifies this
      ensures Valid() && reply == NOTE_CREATED
      ensures userReminders == NoteAdded(old(userReminders), sender, data, now)
      ensures globalReminders == old(globalReminders)
    {
      var note := Note(sender, data, now);
      if sender !in userReminders {
        userReminders := userReminders[sender := Insert([], note)];
      } else {
        InsertSorted(userReminders[sender], note);
        userReminders := userReminders[sender := Insert(userReminders[sender], note)];
      }
      reply := NOTE_CREATED;
    }

    /** list: the header and one numbered line per entry, or the empty-list reply. */
    method List(sender: string, calendar: int -> string) returns (replies: seq<string>)
      ensures replies == ListReplies(sender, if sender in userReminders then userReminders[sender] else [], calendar)
    {
      var userSet := if sender in userReminders then userReminders[sender] else [];
      if userSet == [] {
        return [NONE_ACTIVE];
      }
      var lines := [];
      var i := 0;
      while i < |userSet|
        invariant 0 <= i <= |userSet|
        invariant lines == Numbered(userSet[..i], calendar)
      {
        lines := lines + [Line(i + 1, Text(userSet[i], calendar))];
        i := i + 1;
        assert userSet[..i][..i - 1] == userSet[..i - 1];
      }
      assert userSet[..i] == userSet;
      replies := [Header(sender, |userSet|)] + lines;
    }

    /**
     * The iterator walk of remove: advancing `index` times from the start
     * leaves the index-th entry, counting from 1.
     */
    static method Nth(s: seq<Item>, index: int) returns (toRemove: Item)
      requires 1 <= index <= |s|
      ensures toRemove == s[index - 1]
    {
      var it := 0;
      var n := index - 1;
      toRemove := s[0];
      while n >= 0
        invariant -1 <= n && it + n == index - 1 && it <= |s|
        invariant it > 0 ==> toRemove == s[it - 1]
        decreases n
      {
        toRemove := s[it];
        it := it + 1;
        n := n - 1;
      }
    }

    /** remove */
    method Remove(sender: string, data: string) returns (reply: string)
      requires Valid()
      modifies this
      ensures Valid()
      ensures Removal(userReminders, globalReminders, reply)
           == Removed(old(userReminders), old(globalReminders), sender, data)
    {
      var index := ParseInt(data);
      if index.None? {
        return USAGE;
      }
      if sender !in userReminders {
        return NOTHING_TO_REMOVE;
      }
      var reminders := userReminders[sender];
      if index.value < 1 || index.value > |reminders| {
        return OutOfRange(index.value);
      }
      var toRemove := Nth(reminders, index.value);
      Delete(sender, toRemove);
      reply := REMOVED;
    }

    /** reminders.remove(toRemove), and globalReminders.remove for a reminder. */
    method Delete(sender: string, toRemove: Item)
      requires Valid() && sender in userReminders
      modifies this
      ensures Valid()
      ensures Removal(userReminders, globalReminders, REMOVED)
           == Deleted(old(userReminders), old(globalReminders), sender, toRemove)
    {
      var reminders := userReminders[sender];
      WithoutSorted(reminders, toRemove);
      userReminders := userReminders[sender := Without(reminders, toRemove)];
      if toRemove.Reminder? {
        WithoutSorted(globalReminders, toRemove);
        globalReminders := Without(globalReminders, toRemove);
      }
    }

    /**
     * handle: dispatch on the command. An unknown command is answered and
     * then falls through to the help reply.
     */
    method Handle(m: Message, now: int, calendar: int -> string) returns (replies: seq<string>)
      requires Valid()
      modifies this
      ensures Valid()
      ensures match Parse(m)
        case Ignored => replies == [] && unchanged(this)
        case Invoked(AddCmd, _) => replies == [NOT_YET] && unchanged(this)
        case Invoked(BadCmd, _) => replies == [UNKNOWN, SEE_HELP] && unchanged(this)
        case Invoked(HelpCmd, _) => replies == [SEE_HELP] && unchanged(this)
        case Invoked(ListCmd, _) =>
          replies == ListReplies(m.sender, if m.sender in userReminders then userReminders[m.sender] else [], calendar)
          && unchanged(this)
        case Invoked(NoteCmd, arg) =>
          replies == [NOTE_CREATED] && globalReminders == old(globalReminders)
          && userReminders == NoteAdded(old(userReminders), m.sender, arg, now)
        case Invoked(RemoveCmd, arg) =>
          var r := Removed(old(userReminders), old(globalReminders), m.sender, arg);
          replies == [r.reply] && userReminders == r.users && globalReminders == r.global
    {
      var p := Parse(m);
      if p.Ignored? {
        return [];
      }
      match p.cmd
      case AddCmd =>
        replies := [NOT_YET];
      case BadCmd =>
        replies := [UNKNOWN, SEE_HELP];
      case HelpCmd =>
        replies := [SEE_HELP];
      case ListCmd =>
        replies := List(m.sender, calendar);
      case NoteCmd =>
        var reply := AddNote(m.sender, p.arg, now);
        replies := [reply];
      case RemoveCmd =>
        var reply := Remove(m.sender, p.arg);
        replies := [reply];
    }
  }
}
