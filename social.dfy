/**
 * SocialNetworkService: named social network connectors, and for each
 * followed stream the tasks that post its new items to an IRC target. Each
 * task remembers the id of the newest post it has seen.
 */
module Social {
  import opened Strings
  import opened Streams

  const TARGET_NULL := "Target can not be null"
  const NETWORK_NULL := "Network can not be null"
  const TYPE_NULL := "Type can not be null"
  const SEARCH_NULL := "Search can not be null"
  const SEARCH_EMPTY := "Search can not be empty"
  const PERIOD_NULL := "Period can not be null"
  const NOT_FOUND := "Network not found"

  /** Titles longer than this are cut. */
  const LONG_TITLE: nat := 80
  /** How much of a long title is kept. */
  const KEPT: nat := 60
  const ELLIPSIS: char := '…'

  /**
   * A boolean return, the IllegalArgumentException thrown with this message,
   * or the ArithmeticException Duration.toNanos throws on overflow.
   */
  datatype Result = Returned(value: bool) | IllegalArgument(message: string) | ArithmeticOverflow

  /** The range of a Java long. */
  const LONG_MIN: int := -0x8000_0000_0000_0000
  const LONG_MAX: int := 0x7FFF_FFFF_FFFF_FFFF
  /** The message Timer.scheduleAtFixedRate throws for a period that is not positive. */
  const NON_POSITIVE_PERIOD := "Non-positive period."

  /**
   * What scheduleAtFixedRate(task, 2000, period.toNanos()) throws for a period
   * of `nanos` nanoseconds, or None when the stream task is scheduled: toNanos
   * overflows outside the range of a long, and the timer refuses a period
   * that is not positive. The argument is evaluated first.
   */
  function ScheduleError(nanos: int): (e: Option<Result>)
    ensures e.None? <==> 0 < nanos <= LONG_MAX
    ensures e == Some(ArithmeticOverflow) <==> nanos < LONG_MIN || LONG_MAX < nanos
    ensures e.Some? && e.value.IllegalArgument? ==> e.value.message == NON_POSITIVE_PERIOD
  {
    if nanos < LONG_MIN || LONG_MAX < nanos then Some(ArithmeticOverflow)
    else if nanos <= 0 then Some(IllegalArgument(NON_POSITIVE_PERIOD))
    else None
  }

  /** A zero or negative period that fits a long is refused by the timer. */
  lemma NonPositivePeriodRefused(nanos: int)
    requires LONG_MIN <= nanos <= 0
    ensures ScheduleError(nanos) == Some(IllegalArgument(NON_POSITIVE_PERIOD))
  {
  }

  /** A post; `url` is the text URL.toString gives. */
  datatype Post = Post(id: int, url: string, title: string, user: string)

  /** A message a stream task sends: irc.message(target, text). */
  datatype Line = Line(target: string, text: string)

  /** The title as a post line shows it: cut to 60 characters and an ellipsis when over 80. */
  function Shown(title: string): (r: string)
    ensures |title| <= LONG_TITLE ==> r == title
    ensures |title| > LONG_TITLE ==> r == title[..KEPT] + [ELLIPSIS]
  {
    if |title| > LONG_TITLE then title[..KEPT] + [ELLIPSIS] else title
  }

  /** A shown title is never longer than 80 characters and starts like the title. */
  lemma ShownBounded(title: string)
    ensures |Shown(title)| <= LONG_TITLE
    ensures |Shown(title)| <= |title|
    ensures var r := Shown(title); r == title || (|r| == KEPT + 1 && r[..KEPT] == title[..KEPT] && r[KEPT] == ELLIPSIS)
  {
  }

  /** "<user> - <title> [<url>]" */
  function PostLine(p: Post): (r: string)
    ensures |r| == |p.user| + |Shown(p.title)| + |p.url| + 6
    ensures r[..|p.user| + 3] == p.user + " - "
    ensures r[|r| - |p.url| - 1..] == p.url + "]"
  {
    p.user + " - " + Shown(p.title) + " [" + p.url + "]"
  }

  /** One line per post, in the order of the batch, all to the stream task's target. */
  function PostLines(target: string, posts: seq<Post>): (ls: seq<Line>)
    ensures |ls| == |posts|
    ensures forall i :: 0 <= i < |posts| ==> ls[i] == Line(target, PostLine(posts[i]))
  {
    seq(|posts|, i requires 0 <= i < |posts| => Line(target, PostLine(posts[i])))
  }

  /**
   * SocialStreamTask: posts the new items of `stream` to `target`. The
   * network's publicSearch(term, startFrom) is a parameter of Run.
   */
  class SocialStreamTask {
    const target: string
    const stream: SocialStream
    var latest: int

    constructor (target: string, stream: SocialStream)
      ensures this.target == target && this.stream == stream && latest == 0
    {
      this.target := target;
      this.stream := stream;
      latest := 0;
    }

    /**
     * run: every kind of stream asks publicSearch for the posts after
     * `latest`. An empty batch sends nothing and keeps `latest`; otherwise
     * `latest` becomes the id of the batch's first post and every post is
     * sent, in order, to the target.
     */
    method Run(publicSearch: (string, int) -> seq<Post>) returns (sent: seq<Line>)
      modifies this
      ensures var posts := publicSearch(stream.search, old(latest));
        sent == PostLines(target, posts) &&
        latest == if posts == [] then old(latest) else posts[0].id
    {
      var posts := publicSearch(stream.search, latest);
      if posts == [] {
        return [];
      }
      latest := posts[0].id;
      sent := [];
      var i := 0;
      while i < |posts|
        invariant 0 <= i <= |posts|
        invariant sent == PostLines(target, posts[..i])
      {
        sent := sent + [Line(target, PostLine(posts[i]))];
        i := i + 1;
      }
      assert posts[..i] == posts;
    }
  }

  /** The targets of `tasks`, in order. */
  function Targets(tasks: seq<SocialStreamTask>): (ts: seq<string>)
    ensures |ts| == |tasks| && forall i :: 0 <= i < |tasks| ==> ts[i] == tasks[i].target
  {
    seq(|tasks|, i requires 0 <= i < |tasks| => tasks[i].target)
  }

  /** The first task of `tasks` whose target is `target`, or -1. */
  function TaskFor(tasks: seq<SocialStreamTask>, target: string): (i: int)
    ensures -1 <= i < |tasks|
    ensures i >= 0 ==> tasks[i].target == target
    ensures forall j :: 0 <= j < |tasks| && (i == -1 || j < i) ==> tasks[j].target != target
    decreases |tasks|
  {
    if tasks == [] then -1
    else if tasks[0].target == target then 0
    else
      var k := TaskFor(tasks[1..], target);
      if k == -1 then -1 else k + 1
  }

  /** No two tasks share a target. */
  ghost predicate DistinctTargets(tasks: seq<SocialStreamTask>) {
    forall i, j :: 0 <= i < j < |tasks| ==> tasks[i].target != tasks[j].target
  }

  /**
   * The first argument check that fails, in the order Follow makes them
   * (the period only when `period` is checked), or None.
   */
  function ArgumentError(target: Option<string>, network: Option<string>, kind: Option<SearchMethod>,
                         search: Option<string>, period: Option<Option<int>>,
                         networks: map<string, Connector?>): (e: Option<string>)
    ensures e.None? ==> target.Some? && search.Some? && search.value != [] && kind.Some?
    ensures e.None? ==> network.Some? && network.value in networks && networks[network.value] != null
    ensures e.None? && period.Some? ==> period.value.Some?
  {
    if target.None? then Some(TARGET_NULL)
    else if network.None? then Some(NETWORK_NULL)
    else if kind.None? then Some(TYPE_NULL)
    else if search.None? then Some(SEARCH_NULL)
    else if search.value == [] then Some(SEARCH_EMPTY)
    else if period.Some? && period.value.None? then Some(PERIOD_NULL)
    else if network.value !in networks || networks[network.value] == null then Some(NOT_FOUND)
    else None
  }

  /** A null target is reported first, whatever else is wrong. */
  lemma NullTargetFirst(network: Option<string>, kind: Option<SearchMethod>, search: Option<string>,
                        period: Option<Option<int>>, networks: map<string, Connector?>)
    ensures ArgumentError(None, network, kind, search, period, networks) == Some(TARGET_NULL)
  {
  }

  /** An unknown network is reported only when every argument is present. */
  lemma UnknownNetworkLast(target: Option<string>, network: Option<string>, kind: Option<SearchMethod>,
                           search: Option<string>, period: Option<Option<int>>, networks: map<string, Connector?>)
    requires ArgumentError(target, network, kind, search, period, networks) == Some(NOT_FOUND)
    ensures target.Some? && network.Some? && kind.Some? && search.Some? && search.value != []
    ensures network.value !in networks || networks[network.value] == null
  {
  }

  class SocialNetworkService {
    /** The connectors by name; Java's map may hold null for a name. */
    var networks: map<string, Connector?>
    /** The tasks of each followed stream, in the order they were added. */
    var following: map<SocialStream, seq<SocialStreamTask>>
    /** Every task handed to the timer, with its period in nanoseconds. */
    ghost var scheduled: seq<(SocialStreamTask, int)>
    /** Every task cancelled. */
    ghost var cancelled: set<SocialStreamTask>

    ghost predicate Valid()
      reads this
    {
      forall s :: s in following ==>
        DistinctTargets(following[s]) && forall i :: 0 <= i < |following[s]| ==> following[s][i].stream == s
    }

    constructor ()
      ensures Valid() && networks == map[] && following == map[] && scheduled == [] && cancelled == {}
    {
      networks := map[];
      following := map[];
      scheduled := [];
      cancelled := {};
    }

    /**
     * AddNetwork: putIfAbsent(name, network) == null. A name that is absent,
     * or that maps to null, takes the connector and the call returns true;
     * a name that already has a connector keeps it and the call returns false.
     */
    method AddNetwork(name: string, network: Connector?) returns (added: bool)
      modifies this
      ensures added <==> name !in old(networks) || old(networks)[name] == null
      ensures networks == if added then old(networks)[name := network] else old(networks)
      ensures following == old(following) && scheduled == old(scheduled) && cancelled == old(cancelled)
    {
      if name in networks && networks[name] != null {
        return false;
      }
      networks := networks[name := network];
      return true;
    }

    /**
     * Follow: after the argument checks, `target` follows the stream of the
     * named network. A target that already follows it changes nothing and
     * gives true. Otherwise one new task for the target is made and handed to
     * the timer with the period's nanosecond count: when that succeeds the
     * task is added to the stream's list (a new list when the stream had
     * none) and the call gives true. When toNanos or the timer throws, a
     * stream that already had a list keeps the new task in it, unscheduled,
     * since the new stream task is added before the timer is called; a new stream is
     * not recorded at all.
     */
    method Follow(target: Option<string>, network: Option<string>, kind: Option<SearchMethod>,
                  search: Option<string>, period: Option<int>) returns (r: Result)
      requires Valid()
      modifies this
      ensures Valid() && networks == old(networks) && cancelled == old(cancelled)
      ensures var e := ArgumentError(target, network, kind, search, Some(period), old(networks));
        e.Some? ==> r == IllegalArgument(e.value) && following == old(following) && scheduled == old(scheduled)
      ensures ArgumentError(target, network, kind, search, Some(period), old(networks)).None? ==>
        var s := SocialStream(old(networks)[network.value], kind.value, search.value);
        var before := if s in old(following) then old(following)[s] else [];
        var err := ScheduleError(period.value);
        if TaskFor(before, target.value) >= 0 then
          r == Returned(true) && following == old(following) && scheduled == old(scheduled)
        else
          exists task: SocialStreamTask :: fresh(task) && task.target == target.value && task.stream == s &&
            if err.None? then
              r == Returned(true) &&
              following == old(following)[s := before + [task]] &&
              scheduled == old(scheduled) + [(task, period.value)]
            else
              r == err.value && scheduled == old(scheduled) &&
              following == if s in old(following) then old(following)[s := before + [task]] else old(following)
    {
      var e := ArgumentError(target, network, kind, search, Some(period), networks);
      if e.Some? {
        return IllegalArgument(e.value);
      }
      var net := networks[network.value];
      var toFollow := SocialStream(net, kind.value, search.value);
      var err := ScheduleError(period.value);
      if toFollow in following {
        var tasks := following[toFollow];
        var i := FindTask(tasks, target.value);
        if i >= 0 {
          return Returned(true);
        }
        var task := new SocialStreamTask(target.value, toFollow);
        AddedDistinct(tasks, task);
        following := following[toFollow := tasks + [task]];
        if err.Some? {
          return err.value;
        }
        scheduled := scheduled + [(task, period.value)];
        return Returned(true);
      } else {
        var task := new SocialStreamTask(target.value, toFollow);
        if err.Some? {
          return err.value;
        }
        scheduled := scheduled + [(task, period.value)];
        following := following[toFollow := [task]];
        var none: seq<SocialStreamTask> := [];
        assert none + [task] == [task];
        assert following == old(following)[toFollow := none + [task]];
        return Returned(true);
      }
    }

    /**
     * Unfollow: after the same argument checks, except the period, the
     * target's task on the stream is cancelled and removed, leaving the
     * other tasks in order. A stream nobody follows, or a target without a
     * task on it, gives false and changes nothing.
     */
    method Unfollow(target: Option<string>, network: Option<string>, kind: Option<SearchMethod>,
                    search: Option<string>) returns (r: Result)
      requires Valid()
      modifies this
      ensures Valid() && networks == old(networks) && scheduled == old(scheduled)
      ensures var e := ArgumentError(target, network, kind, search, None, old(networks));
        e.Some? ==> r == IllegalArgument(e.value) && following == old(following) && cancelled == old(cancelled)
      ensures ArgumentError(target, network, kind, search, None, old(networks)).None? ==>
        var s := SocialStream(old(networks)[network.value], kind.value, search.value);
        if s !in old(following) || TaskFor(old(following)[s], target.value) < 0 then
          r == Returned(false) && following == old(following) && cancelled == old(cancelled)
        else
          var tasks := old(following)[s];
          var i := TaskFor(tasks, target.value);
          r == Returned(true) &&
          following == old(following)[s := tasks[..i] + tasks[i + 1..]] &&
          cancelled == old(cancelled) + {tasks[i]}
    {
      var e := ArgumentError(target, network, kind, search, None, networks);
      if e.Some? {
        return IllegalArgument(e.value);
      }
      var net := networks[network.value];
      var toFollow := SocialStream(net, kind.value, search.value);
      if toFollow !in following {
        return Returned(false);
      }
      var tasks := following[toFollow];
      var i := FindTask(tasks, target.value);
      if i < 0 {
        return Returned(false);
      }
      cancelled := cancelled + {tasks[i]};
      RemovedDistinct(tasks, i);
      following := following[toFollow := tasks[..i] + tasks[i + 1..]];
      return Returned(true);
    }
  }

  /** The loop over a stream's tasks looking for the target's task. */
  method FindTask(tasks: seq<SocialStreamTask>, target: string) returns (i: int)
    ensures i == TaskFor(tasks, target)
  {
    var k := 0;
    while k < |tasks|
      invariant 0 <= k <= |tasks|
      invariant forall j :: 0 <= j < k ==> tasks[j].target != target
    {
      if tasks[k].target == target {
        TaskForFirst(tasks, target, k);
        return k;
      }
      k := k + 1;
    }
    TaskForNone(tasks, target);
    return -1;
  }

  lemma TaskForFirst(tasks: seq<SocialStreamTask>, target: string, k: nat)
    requires k < |tasks| && tasks[k].target == target
    requires forall j :: 0 <= j < k ==> tasks[j].target != target
    ensures TaskFor(tasks, target) == k
  {
  }

  lemma TaskForNone(tasks: seq<SocialStreamTask>, target: string)
    requires forall j :: 0 <= j < |tasks| ==> tasks[j].target != target
    ensures TaskFor(tasks, target) == -1
  {
  }

  /** Removing one task keeps the targets distinct and the streams right. */
  lemma RemovedDistinct(tasks: seq<SocialStreamTask>, i: nat)
    requires i < |tasks| && DistinctTargets(tasks)
    ensures DistinctTargets(tasks[..i] + tasks[i + 1..])
    ensures forall x :: x in tasks[..i] + tasks[i + 1..] ==> x in tasks
  {
    var r := tasks[..i] + tasks[i + 1..];
    forall a, b | 0 <= a < b < |r| ensures r[a].target != r[b].target {
      var a' := if a < i then a else a + 1;
      var b' := if b < i then b else b + 1;
      assert r[a] == tasks[a'] && r[b] == tasks[b'];
    }
  }

  /** Adding a task for a target the list lacks keeps the targets distinct. */
  lemma AddedDistinct(tasks: seq<SocialStreamTask>, task: SocialStreamTask)
    requires DistinctTargets(tasks) && TaskFor(tasks, task.target) == -1
    ensures DistinctTargets(tasks + [task])
    ensures forall i :: 0 <= i < |tasks| ==> (tasks + [task])[i] == tasks[i]
  {
  }

  /**
   * Following twice is following once: the second call finds the target's
   * task and changes nothing.
   */
  lemma FollowedTargetFound(tasks: seq<SocialStreamTask>, task: SocialStreamTask)
    requires TaskFor(tasks, task.target) == -1
    ensures TaskFor(tasks + [task], task.target) == |tasks|
  {
    TaskForFirst(tasks + [task], task.target, |tasks|);
  }

  /** After removal the target has no task left on the stream. */
  lemma UnfollowedTargetGone(tasks: seq<SocialStreamTask>, target: string)
    requires DistinctTargets(tasks) && TaskFor(tasks, target) >= 0
    ensures var i := TaskFor(tasks, target); TaskFor(tasks[..i] + tasks[i + 1..], target) == -1
  {
    var i := TaskFor(tasks, target);
    var r := tasks[..i] + tasks[i + 1..];
    forall j | 0 <= j < |r| ensures r[j].target != target {
      if j < i {
        assert r[j] == tasks[j];
      } else {
        assert r[j] == tasks[j + 1];
      }
    }
    TaskForNone(r, target);
  }
}
