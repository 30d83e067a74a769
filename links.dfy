/**
 * LinkService: finds the links in a chat message and starts one resolver
 * per link. The resolver it starts is its own nested LinkResolver, an older
 * version of the one in module Resolver: it follows redirects without any
 * limit, treats every exception alike, and scans only lower-case title tags.
 */
module Links {
  import opened Strings
  import opened Titles
  import opened Ordered
  import opened Resolver

  // ---------------------------------------------------------------------
  // protocolPattern: https?://[^\s]+, case-insensitive
  // ---------------------------------------------------------------------

  /** `p` (lower case) occurs at `i` in `s`, ignoring the case of `s`. */
  predicate CiPrefixAt(s: string, p: string, i: nat) {
    i + |p| <= |s| && ToLower(s[i..i + |p|]) == p
  }

  /**
   * A whole string that protocolPattern matches: "https://" (or, failing
   * that, "http://") in any case, then at least one more character, and no
   * whitespace anywhere.
   */
  predicate IsProtocolLink(l: string) {
    ProtocolAt(l, 0) > 0 && |l| > ProtocolAt(l, 0) && forall j :: 0 <= j < |l| ==> !IsSpace(l[j])
  }

  /** Looking for `q` at the start of a slice is looking for it in the whole text. */
  lemma CiPrefixSlice(s: string, i: nat, k: nat, q: string)
    requires i <= k <= |s|
    ensures i + |q| <= k ==> (CiPrefixAt(s[i..k], q, 0) <==> CiPrefixAt(s, q, i))
    ensures i + |q| > k ==> !CiPrefixAt(s[i..k], q, 0)
  {
    if i + |q| <= k {
      assert s[i..k][0..|q|] == s[i..i + |q|];
    }
  }

  /** The protocol part of a match holds no whitespace. */
  lemma NoSpaceInProtocol(s: string, i: nat)
    ensures forall j :: i <= j < i + ProtocolAt(s, i) ==> !IsSpace(s[j])
  {
    var n := ProtocolAt(s, i);
    var p := if n == 8 then "https://" else "http://";
    forall j | i <= j < i + n ensures !IsSpace(s[j]) {
      assert ToLower(s[i..i + n])[j - i] == ToLowerChar(s[j]) == p[j - i];
    }
  }

  /** A match starting at `i` and ending at `k` starts with the protocol found at `i`. */
  lemma ProtocolAtSlice(s: string, i: nat, k: nat)
    requires i + ProtocolAt(s, i) <= k <= |s| && ProtocolAt(s, i) > 0
    ensures ProtocolAt(s[i..k], 0) == ProtocolAt(s, i)
  {
    CiPrefixSlice(s, i, k, "https://");
    CiPrefixSlice(s, i, k, "http://");
  }

  /** The end of the run of non-whitespace characters that starts at `i`. */
  function WordEnd(s: string, i: nat): (k: nat)
    requires i <= |s|
    ensures i <= k <= |s|
    ensures forall j :: i <= j < k ==> !IsSpace(s[j])
    ensures k < |s| ==> IsSpace(s[k])
    decreases |s| - i
  {
    if i == |s| || IsSpace(s[i]) then i else WordEnd(s, i + 1)
  }

  /** The length of the protocol part that a match at `i` would start with (0 when none fits). */
  function ProtocolAt(s: string, i: nat): (n: nat)
    ensures n == 0 || n == 7 || n == 8
    ensures n == 8 ==> CiPrefixAt(s, "https://", i)
    ensures n == 7 ==> CiPrefixAt(s, "http://", i)
  {
    if CiPrefixAt(s, "https://", i) then 8 else if CiPrefixAt(s, "http://", i) then 7 else 0
  }

  /** Where a protocolPattern match starting at `i` ends (greedily), or None when none starts there. */
  function MatchAt(s: string, i: nat): (r: Option<nat>)
    requires i <= |s|
    ensures r.Some? ==> i < r.value <= |s| && IsProtocolLink(s[i..r.value])
    ensures r.Some? ==> r.value == |s| || IsSpace(s[r.value])
  {
    var n := ProtocolAt(s, i);
    if n > 0 && i + n < |s| && !IsSpace(s[i + n]) then
      var k := WordEnd(s, i + n);
      NoSpaceInProtocol(s, i);
      ProtocolAtSlice(s, i, k);
      Some(k)
    else None
  }

  /** The successive matches of protocolPattern.find() from position `from` on. */
  function LinksFrom(s: string, from: nat): (r: seq<string>)
    requires from <= |s|
    ensures forall k :: 0 <= k < |r| ==> IsProtocolLink(r[k])
    decreases |s| - from
  {
    if from == |s| then []
    else match MatchAt(s, from)
      case Some(end) => [s[from..end]] + LinksFrom(s, end)
      case None => LinksFrom(s, from + 1)
  }

  // ---------------------------------------------------------------------
  // uris: the TreeSet of both patterns' matches
  // ---------------------------------------------------------------------

  /** TreeSet.add of each element in turn. */
  function InsertAll(s: seq<string>, xs: seq<string>): (r: seq<string>)
    requires Ascending(s)
    ensures Ascending(r)
    ensures forall y :: y in r <==> y in s || y in xs
    decreases |xs|
  {
    if xs == [] then s
    else
      var r := InsertAll(Insert(s, xs[0]), xs[1..]);
      assert forall y :: y in xs <==> y == xs[0] || y in xs[1..];
      r
  }

  lemma InsertAllCons(s: seq<string>, x: string, xs: seq<string>)
    requires Ascending(s)
    ensures InsertAll(s, [x] + xs) == InsertAll(Insert(s, x), xs)
  {
    assert ([x] + xs)[0] == x && ([x] + xs)[1..] == xs;
  }

  /**
   * The links of `message`: the matches `uriMatches` of uriPattern, in the
   * order find() returns them, and then those of protocolPattern.
   */
  function UrisSpec(uriMatches: seq<string>, message: string): (r: seq<string>)
    ensures Ascending(r)
    ensures forall y :: y in r <==> y in uriMatches || y in LinksFrom(message, 0)
  {
    InsertAll(InsertAll([], uriMatches), LinksFrom(message, 0))
  }

  /** LinkService.uris */
  method Uris(uriMatches: seq<string>, message: string) returns (r: seq<string>)
    ensures r == UrisSpec(uriMatches, message)
  {
    r := InsertMatches(uriMatches);
    r := InsertProtocolLinks(r, message);
  }

  /** The first loop of LinkService.uris: every uriPattern match, into an empty set. */
  method InsertMatches(uriMatches: seq<string>) returns (r: seq<string>)
    ensures Ascending(r) && r == InsertAll([], uriMatches)
  {
    r := [];
    var k := 0;
    while k < |uriMatches|
      invariant 0 <= k <= |uriMatches| && Ascending(r)
      invariant InsertAll(r, uriMatches[k..]) == InsertAll([], uriMatches)
    {
      assert uriMatches[k..] == [uriMatches[k]] + uriMatches[k + 1..];
      InsertAllCons(r, uriMatches[k], uriMatches[k + 1..]);
      r := Insert(r, uriMatches[k]);
      k := k + 1;
    }
  }

  /** The second loop of LinkService.uris: every protocolPattern match of `message`, into `s`. */
  method InsertProtocolLinks(s: seq<string>, message: string) returns (r: seq<string>)
    requires Ascending(s)
    ensures r == InsertAll(s, LinksFrom(message, 0))
  {
    r := s;
    var i := 0;
    while i < |message|
      invariant 0 <= i <= |message| && Ascending(r)
      invariant InsertAll(r, LinksFrom(message, i)) == InsertAll(s, LinksFrom(message, 0))
      decreases |message| - i
    {
      var m := MatchAt(message, i);
      if m.Some? {
        var link := message[i..m.value];
        assert LinksFrom(message, i) == [link] + LinksFrom(message, m.value);
        InsertAllCons(r, link, LinksFrom(message, m.value));
        r := Insert(r, link);
        i := m.value;
      } else {
        assert LinksFrom(message, i) == LinksFrom(message, i + 1);
        i := i + 1;
      }
    }
  }

  /** Ignoring case, `s` holds the prefix `q` of `p` wherever it holds `p`. */
  lemma CiPrefixShorter(s: string, p: string, q: string, i: nat)
    requires CiPrefixAt(s, p, i) && |q| <= |p| && p[..|q|] == q
    ensures CiPrefixAt(s, q, i)
  {
    forall j | 0 <= j < |q| ensures ToLower(s[i..i + |q|])[j] == q[j] {
      assert s[i..i + |q|][j] == s[i + j] == s[i..i + |p|][j];
      assert p[..|q|][j] == p[j];
    }
  }

  /** Text in which "http" never occurs, in any case, holds no protocol link. */
  lemma {:induction false} NoHttpNoLinks(s: string, from: nat)
    requires from <= |s|
    requires forall i: nat :: from <= i ==> !CiPrefixAt(s, "http", i)
    ensures LinksFrom(s, from) == []
    decreases |s| - from
  {
    if from < |s| {
      var n := ProtocolAt(s, from);
      if n == 8 {
        CiPrefixShorter(s, "https://", "http", from);
      } else if n == 7 {
        CiPrefixShorter(s, "http://", "http", from);
      }
      NoHttpNoLinks(s, from + 1);
    }
  }

  /**
   * A link preceded only by text without an 'h' is found whole, and it is
   * the only match.
   */
  lemma {:induction false} LinkAfterText(p: string, l: string, from: nat)
    requires IsProtocolLink(l) && from <= |p|
    requires 'h' !in p && 'H' !in p
    ensures LinksFrom(p + l, from) == [l]
    decreases |p| - from
  {
    if from < |p| {
      NoMatchInText(p, l, from);
      LinkAfterText(p, l, from + 1);
    } else {
      LinkAtEnd(p, l);
    }
  }

  /** No link starts inside text without an 'h'. */
  lemma NoMatchInText(p: string, l: string, i: nat)
    requires i < |p| && 'h' !in p && 'H' !in p
    ensures LinksFrom(p + l, i) == LinksFrom(p + l, i + 1)
  {
    var s := p + l;
    assert s[i] == p[i] && p[i] in p;
    assert MatchAt(s, i).None?;
  }

  /** A link that ends the text is found whole. */
  lemma LinkAtEnd(p: string, l: string)
    requires IsProtocolLink(l)
    ensures LinksFrom(p + l, |p|) == [l]
  {
    var s := p + l;
    assert s[|p|..|s|] == l;
    CiPrefixSlice(s, |p|, |s|, "https://");
    CiPrefixSlice(s, |p|, |s|, "http://");
    var n := ProtocolAt(s, |p|);
    assert n == ProtocolAt(l, 0) && n > 0;
    assert s[|p| + n] == l[n];
    assert WordEnd(s, |p| + n) == |s| by {
      assert forall j :: |p| <= j < |s| ==> s[j] == l[j - |p|];
    }
    assert MatchAt(s, |p|) == Some(|s|);
    assert LinksFrom(s, |p|) == [s[|p|..|s|]] + LinksFrom(s, |s|);
    assert s[|p|..|s|] == l && LinksFrom(s, |s|) == [];
    assert [l] + [] == [l];
  }

  /** Text without the letter h holds no protocol link. */
  lemma NoLetterH(s: string)
    requires 'h' !in s && 'H' !in s
    ensures LinksFrom(s, 0) == []
  {
    forall i: nat | true ensures !CiPrefixAt(s, "http", i) {
      if i + 4 <= |s| {
        assert s[i] in s;
        assert ToLower(s[i..i + 4])[0] == ToLowerChar(s[i]);
      }
    }
    NoHttpNoLinks(s, 0);
  }

  /** Two links found in descending order are kept in ascending order. */
  lemma {:induction false} InsertAllTwo(a: string, b: string)
    requires Below(b, a)
    ensures InsertAll([], [a, b]) == [b, a]
  {
    assert [a, b][1..] == [b] && [b][1..] == [];
    assert Insert([], a) == [a];
    CompareZeroIffEqual(b, a);
    assert Insert([a], b) == [b, a];
    assert InsertAll([], [a, b]) == InsertAll([a], [b]);
    assert InsertAll([a], [b]) == InsertAll([b, a], []);
  }

  /** The message "google.com or bing.com", whose uriPattern matches are its two words. */
  lemma UrisTwoDomains(message: string)
    requires message == "google.com or bing.com"
    ensures UrisSpec(["google.com", "bing.com"], message) == ["bing.com", "google.com"]
  {
    NoLinksInDomains(message);
    BingBeforeGoogle();
    InsertAllTwo("google.com", "bing.com");
    var found := InsertAll([], ["google.com", "bing.com"]);
    assert InsertAll(found, []) == found;
  }

  lemma NoLinksInDomains(message: string)
    requires message == "google.com or bing.com"
    ensures LinksFrom(message, 0) == []
  {
    NoLetterH(message);
  }

  lemma BingBeforeGoogle()
    ensures Below("bing.com", "google.com")
  {
    assert "bing.com"[0] == 'b' && "google.com"[0] == 'g';
  }

  /** Messages with no uriPattern match and no "http" yield no links at all. */
  lemma UrisNone(message: string)
    requires message == "bob" || message == "hello com"
    ensures UrisSpec([], message) == []
  {
    forall i: nat | true ensures !CiPrefixAt(message, "http", i) {
      if i + 4 <= |message| {
        assert ToLower(message[i..i + 4])[1] == ToLowerChar(message[i + 1]);
      }
    }
    NoHttpNoLinks(message, 0);
  }

  /**
   * protocolPattern's [^\s]+ runs to the next whitespace, so the closing
   * bracket of a link written in brackets becomes part of the link.
   */
  lemma BracketedLink(l: string)
    requires IsProtocolLink(l)
    ensures LinksFrom("[" + l + "]", 0) == [l + "]"]
    ensures l + "]" in UrisSpec([l], "[" + l + "]")
  {
    var m := l + "]";
    BracketKept(l);
    LinkAfterText("[", m, 0);
    assert "[" + l + "]" == "[" + m;
  }

  /** A protocol link followed by a closing bracket is still a protocol link. */
  lemma BracketKept(l: string)
    requires IsProtocolLink(l)
    ensures IsProtocolLink(l + "]")
  {
    var m := l + "]";
    assert m[0..|l|] == l;
    CiPrefixSlice(m, 0, |l|, "https://");
    CiPrefixSlice(m, 0, |l|, "http://");
    assert forall j :: 0 <= j < |m| ==> m[j] == ']' || m[j] == l[j];
  }

  // ---------------------------------------------------------------------
  // The nested LinkResolver
  // ---------------------------------------------------------------------

  /** The nested constructor: http:// is prefixed unless protocolPattern matches the whole link. */
  function LegacyNormalise(base: string): (r: string)
    ensures IsProtocolLink(r) || StartsWith(r, "http://")
    ensures |base| <= |r| && r[|r| - |base|..] == base
  {
    if IsProtocolLink(base) then base else "http://" + base
  }

  /** Every link protocolPattern found is resolved as it is, with no prefix added. */
  lemma FoundLinksUnprefixed(message: string, k: nat)
    requires k < |LinksFrom(message, 0)|
    ensures LegacyNormalise(LinksFrom(message, 0)[k]) == LinksFrom(message, 0)[k]
  {
  }

  /** Where the nested resolver's redirect loop ends; `fuel` bounds the requests the model follows. */
  datatype LegacyHop = Ended(outcome: Outcome) | Reached(url: string) | OutOfFuel

  datatype LegacyTrace = LegacyTrace(hop: LegacyHop, probed: seq<string>)

  /**
   * The nested run(): any exception, an unknown host included, ends the
   * thread with an uncaught RuntimeException; there is no hop limit and no
   * interruption check.
   */
  function LegacyFollow(web: Web, curr: string, fuel: nat): (t: LegacyTrace)
    ensures |t.probed| <= fuel
    ensures fuel > 0 ==> t.probed != [] && t.probed[0] == curr
    ensures t.hop.OutOfFuel? ==> |t.probed| == fuel
    ensures t.hop.Reached? ==> t.probed != [] && t.hop.url == t.probed[|t.probed| - 1] && Resolves(web, t.hop.url)
    decreases fuel
  {
    if fuel == 0 then LegacyTrace(OutOfFuel, [])
    else match web.head(curr)
      case UnknownHost => LegacyTrace(Ended(Crash), [curr])
      case Failed => LegacyTrace(Ended(Crash), [curr])
      case Answered(r) =>
        if IsSuccess(r.status) then LegacyTrace(Reached(curr), [curr])
        else if IsRedirect(r.status) && r.location.Some? then
          match web.resolve(curr, r.location.value)
          case None => LegacyTrace(Ended(Crash), [curr])
          case Some(next) =>
            var t := LegacyFollow(web, next, fuel - 1);
            LegacyTrace(t.hop, [curr] + t.probed)
        else LegacyTrace(Ended(Quiet), [curr])
  }

  /**
   * The nested resolver's whole run, when it ends within `fuel` requests;
   * a link that URI.create refuses throws in the constructor, before any.
   */
  function LegacyResolution(web: Web, base: string, fuel: nat): (r: Option<Run>)
    ensures !web.isUri(LegacyNormalise(base)) <==> r == Some(Run(Refused, []))
    ensures web.isUri(LegacyNormalise(base)) && fuel == 0 ==> r.None?
    ensures web.isUri(LegacyNormalise(base)) && r.Some? ==>
      1 <= |r.value.probed| <= fuel && r.value.probed[0] == LegacyNormalise(base)
  {
    if !web.isUri(LegacyNormalise(base)) then Some(Run(Refused, []))
    else LegacyRunFrom(web, LegacyNormalise(base), fuel)
  }

  /** The run of a nested resolver thread from `start`, when it ends within `fuel` requests. */
  function LegacyRunFrom(web: Web, start: string, fuel: nat): (r: Option<Run>)
    ensures fuel == 0 ==> r.None?
    ensures r.Some? ==> 1 <= |r.value.probed| <= fuel && r.value.probed[0] == start
  {
    var t := LegacyFollow(web, start, fuel);
    match t.hop
    case Ended(o) => Some(Run(o, t.probed))
    case Reached(u) => Some(Run(Fetch(Legacy, web, u), t.probed))
    case OutOfFuel => None
  }

  /** LinkService.LinkResolver: the constructor, then run(), stopped after `fuel` HEAD requests. */
  method LegacyResolveLink(web: Web, base: string, fuel: nat) returns (out: Option<Outcome>, probed: seq<string>)
    ensures out.Some? <==> LegacyResolution(web, base, fuel).Some?
    ensures out.Some? ==> Run(out.value, probed) == LegacyResolution(web, base, fuel).value
    ensures out.None? ==> web.isUri(LegacyNormalise(base)) && probed == LegacyFollow(web, LegacyNormalise(base), fuel).probed
  {
    var start := LegacyNormalise(base);
    if !web.isUri(start) {
      return Some(Refused), [];
    }
    out, probed := LegacyRun(web, start, fuel);
  }

  /** LinkService.LinkResolver.run from `start`, stopped after `fuel` HEAD requests. */
  method LegacyRun(web: Web, start: string, fuel: nat) returns (out: Option<Outcome>, probed: seq<string>)
    ensures out.Some? <==> LegacyRunFrom(web, start, fuel).Some?
    ensures out.Some? ==> Run(out.value, probed) == LegacyRunFrom(web, start, fuel).value
    ensures out.None? ==> probed == LegacyFollow(web, start, fuel).probed
  {
    var curr := start;
    var left: nat := fuel;
    probed := [];
    while left > 0
      invariant left <= fuel
      invariant LegacyFollow(web, start, fuel)
             == LegacyTrace(LegacyFollow(web, curr, left).hop, probed + LegacyFollow(web, curr, left).probed)
    {
      var probe := web.head(curr);
      var next: Option<string> := None;
      if Redirecting(probe) {
        next := web.resolve(curr, probe.response.location.value);
      }
      if next.None? {
        LegacyStop(web, start, fuel, curr, left, probed);
      }
      probed := probed + [curr];
      if !probe.Answered? {
        return Some(Crash), probed;
      }
      var status := probe.response.status;
      if IsSuccess(status) {
        var fetched := FetchData(Legacy, web, curr);
        return Some(fetched), probed;
      } else if IsRedirect(status) && probe.response.location.Some? {
        if next.None? {
          return Some(Crash), probed;
        }
        LegacyRedirectStep(web, curr, next.value, left, probed[..|probed| - 1]);
        curr := next.value;
      } else {
        return Some(Quiet), probed;
      }
      left := left - 1;
    }
    assert probed == LegacyFollow(web, start, fuel).probed by {
      assert LegacyFollow(web, curr, left).probed == [];
    }
    out := None;
  }

  /**
   * A HEAD request that does not redirect to a resolvable Location ends the
   * walk, with `curr` as its last probed URL.
   */
  lemma LegacyStop(web: Web, start: string, fuel: nat, curr: string, left: nat, before: seq<string>)
    requires left > 0
    requires LegacyFollow(web, start, fuel)
             == LegacyTrace(LegacyFollow(web, curr, left).hop, before + LegacyFollow(web, curr, left).probed)
    requires !RedirectsOnward(web, curr)
    ensures !web.head(curr).Answered? ==> LegacyFollow(web, start, fuel) == LegacyTrace(Ended(Crash), before + [curr])
    ensures Redirecting(web.head(curr)) ==> LegacyFollow(web, start, fuel) == LegacyTrace(Ended(Crash), before + [curr])
    ensures web.head(curr).Answered? && IsSuccess(web.head(curr).response.status)
            ==> LegacyFollow(web, start, fuel) == LegacyTrace(Reached(curr), before + [curr])
    ensures web.head(curr).Answered? && !IsSuccess(web.head(curr).response.status) && !Redirecting(web.head(curr))
            ==> LegacyFollow(web, start, fuel) == LegacyTrace(Ended(Quiet), before + [curr])
  {
  }

  /** Following one redirect moves the probed URL from the rest of the walk to the walk so far. */
  lemma LegacyRedirectStep(web: Web, curr: string, next: string, left: nat, before: seq<string>)
    requires left > 0 && web.head(curr).Answered?
    requires IsRedirect(web.head(curr).response.status) && web.head(curr).response.location.Some?
    requires web.resolve(curr, web.head(curr).response.location.value) == Some(next)
    ensures var t := LegacyFollow(web, next, left - 1);
      LegacyTrace(LegacyFollow(web, curr, left).hop, before + LegacyFollow(web, curr, left).probed)
      == LegacyTrace(t.hop, (before + [curr]) + t.probed)
  {
    var t := LegacyFollow(web, next, left - 1);
    assert before + ([curr] + t.probed) == (before + [curr]) + t.probed;
  }

  /**
   * Against a link that redirects for ever, each time to a Location that
   * resolves, the nested resolver never stops: whatever bound is put on it,
   * it has used it all up on HEAD requests.
   */
  lemma {:induction false} LegacyNeverGivesUp(web: Web, curr: string, fuel: nat)
    requires forall u :: RedirectsOnward(web, u)
    ensures LegacyFollow(web, curr, fuel).hop.OutOfFuel?
    ensures |LegacyFollow(web, curr, fuel).probed| == fuel
    decreases fuel
  {
    if fuel > 0 {
      assert RedirectsOnward(web, curr);
      LegacyNeverGivesUp(web, web.resolve(curr, web.head(curr).response.location.value).value, fuel - 1);
    }
  }

  /**
   * Its redirect step throws like resolveLocation's: a Location that does not
   * resolve ends the thread straight after the request that returned it,
   * whatever requests are left.
   */
  lemma {:induction false} LegacyUnresolvableLocationCrashes(web: Web, curr: string, fuel: nat)
    ensures var t := LegacyFollow(web, curr, fuel);
      t.probed != [] && !t.hop.OutOfFuel? ==>
        var last := t.probed[|t.probed| - 1];
        Redirecting(web.head(last)) && web.resolve(last, web.head(last).response.location.value).None?
        ==> t.hop == Ended(Crash)
    decreases fuel
  {
    if fuel > 0 && RedirectsOnward(web, curr) {
      var next := web.resolve(curr, web.head(curr).response.location.value).value;
      LegacyUnresolvableLocationCrashes(web, next, fuel - 1);
      var u := LegacyFollow(web, next, fuel - 1);
      assert LegacyFollow(web, curr, fuel) == LegacyTrace(u.hop, [curr] + u.probed);
      if u.probed != [] {
        assert ([curr] + u.probed)[|u.probed|] == u.probed[|u.probed| - 1];
      }
    }
  }

  /** So, given a link it accepts, it sends more HEAD requests than the current resolver ever does. */
  lemma LegacyExceedsHopLimit(web: Web, base: string)
    requires web.isUri(LegacyNormalise(base))
    requires forall u :: RedirectsOnward(web, u)
    ensures LegacyResolution(web, base, MAX_HOPS + 1).None?
    ensures |LegacyFollow(web, LegacyNormalise(base), MAX_HOPS + 1).probed| > MAX_HOPS
  {
    LegacyNeverGivesUp(web, LegacyNormalise(base), MAX_HOPS + 1);
  }

  // ---------------------------------------------------------------------
  // handle
  // ---------------------------------------------------------------------

  /** Whether the nested constructor accepts a link: URI.create accepts it once normalised. */
  function Accepts(web: Web): string -> bool {
    link => web.isUri(LegacyNormalise(link))
  }

  /**
   * The links whose resolver handle starts, in the order of the set: each
   * link up to the first one whose constructor throws. That exception
   * leaves handle, so no later link is started.
   */
  function Started(accepts: string -> bool, links: seq<string>): (r: seq<string>)
    ensures |r| <= |links|
  {
    if links == [] || !accepts(links[0]) then []
    else [links[0]] + Started(accepts, links[1..])
  }

  /** The links started are the longest run at the front of the set that is accepted. */
  lemma {:induction false} StartedIsAcceptedPrefix(accepts: string -> bool, links: seq<string>)
    ensures Started(accepts, links) <= links
    ensures forall i :: 0 <= i < |Started(accepts, links)| ==> accepts(links[i])
    ensures |Started(accepts, links)| < |links| ==> !accepts(links[|Started(accepts, links)|])
  {
    if links != [] && accepts(links[0]) {
      StartedIsAcceptedPrefix(accepts, links[1..]);
    }
  }

  /** Starting from link i: none when it is refused, otherwise it and then those from i + 1. */
  lemma StartedFrom(accepts: string -> bool, links: seq<string>, i: nat)
    requires i < |links|
    ensures Started(accepts, links[i..])
            == if accepts(links[i]) then [links[i]] + Started(accepts, links[i + 1..]) else []
  {
    assert links[i..][1..] == links[i + 1..];
  }

  /**
   * The loop of LinkService.handle: a nested resolver per link, each started
   * on its own thread (which then runs as LegacyResolution says); `threw` is
   * whether a constructor's IllegalArgumentException ended the loop early.
   */
  method StartAll(web: Web, links: seq<string>) returns (started: seq<string>, threw: bool)
    ensures started == Started(Accepts(web), links) && (threw <==> |started| < |links|)
  {
    var accepts := Accepts(web);
    started := [];
    var i := 0;
    while i < |links|
      invariant 0 <= i <= |links|
      invariant Started(accepts, links) == links[..i] + Started(accepts, links[i..])
      invariant started == links[..i]
    {
      StartedFrom(accepts, links, i);
      if !accepts(links[i]) {
        return started, true;
      }
      ghost var rest := Started(accepts, links[i + 1..]);
      assert links[..i + 1] + rest == links[..i] + ([links[i]] + rest) by {
        assert links[..i + 1] == links[..i] + [links[i]];
      }
      started := started + [links[i]];
      i := i + 1;
    }
    threw := false;
  }

  /** LinkService.handle: the links of the message, then a resolver for each. */
  method Handle(web: Web, uriMatches: seq<string>, message: string) returns (started: seq<string>, threw: bool)
    ensures var links := UrisSpec(uriMatches, message);
      started == Started(Accepts(web), links) && (threw <==> |started| < |links|)
  {
    var links := Uris(uriMatches, message);
    started, threw := StartAll(web, links);
  }

  /**
   * A link that URI.create refuses stops handle: neither it nor any link
   * after it is started, and its own resolver never sends a request.
   */
  lemma RefusedLinkStopsHandle(web: Web, links: seq<string>, k: nat)
    requires k < |links| && !web.isUri(LegacyNormalise(links[k]))
    ensures |Started(Accepts(web), links)| <= k
    ensures forall fuel: nat :: LegacyResolution(web, links[k], fuel) == Some(Run(Refused, []))
  {
    StartedIsAcceptedPrefix(Accepts(web), links);
  }
}
