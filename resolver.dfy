/**
 * LinkResolver: follows a link found in chat through at most five HEAD
 * redirects, then fetches the page and replies with its title, or with its
 * content type and size when it is not a text page.
 *
 * The network is not modelled. What a request returns is given by a `Web`:
 * the answer to a HEAD request for each URL, the page a GET returns, how a
 * Location header is resolved against the current URL (None where
 * URI.resolve or URL conversion throws), the host part of a URL, and whether
 * URI.create accepts a text as a URI at all. Whether the
 * thread has been interrupted after the n-th request is given by
 * `interrupted(n)`.
 */
module Resolver {
  import opened Strings
  import opened Titles

  /** The number of redirects followed before giving up. */
  const MAX_HOPS: nat := 5

  /** Binary prefixes: kilo, mega, giga, tera, peta, exa, zetta, yotta and "hella". */
  const UNIT_PREFIX: string := "kMGTPEZYH"

  const LONG_MAX: int := 0x7FFF_FFFF_FFFF_FFFF

  /** A value a Java `int` holds (HttpURLConnection.getContentLength). */
  type JInt = x: int | IsInt(x) witness 0

  datatype Response = Response(status: int, location: Option<string>)

  /** What a HEAD request comes back with. */
  datatype Probe = Answered(response: Response) | UnknownHost | Failed

  /** What a GET request comes back with: its Content-Type, Content-Length and body lines. */
  datatype Page = Page(contentType: Option<string>, contentLength: JInt, lines: seq<string>) | Unreadable

  datatype Web = Web(
    head: string -> Probe,
    get: string -> Page,
    resolve: (string, string) -> Option<string>,
    host: string -> string,
    isUri: string -> bool)

  /**
   * How a resolver ends: its thread sends a message to the channel, ends
   * quietly or ends with an uncaught exception; or its constructor throws
   * the IllegalArgumentException of URI.create (Refused), so that no thread
   * is started and no request is sent.
   */
  datatype Outcome = Reply(text: string) | Quiet | Crash | Refused

  // ---------------------------------------------------------------------
  // The link as given
  // ---------------------------------------------------------------------

  predicate NoLineTerminator(s: string) {
    forall i :: 0 <= i < |s| ==> !IsLineTerminator(s[i])
  }

  /** The whole of `s` matches ^https?://.+ (case-sensitive; `.` stops at line terminators). */
  predicate HasProtocol(s: string) {
    NoLineTerminator(s) && ((StartsWith(s, "http://") && |s| > 7) || (StartsWith(s, "https://") && |s| > 8))
  }

  /** The constructor: a link without a protocol is taken to be http. */
  function Normalise(base: string): (r: string)
    ensures StartsWith(r, "http://") || StartsWith(r, "https://")
    ensures |base| <= |r| && r[|r| - |base|..] == base
  {
    if HasProtocol(base) then base else "http://" + base
  }

  /** Any non-empty single-line link becomes an http(s) URL, and a second pass changes nothing. */
  lemma NormaliseHasProtocol(base: string)
    requires base != [] && NoLineTerminator(base)
    ensures HasProtocol(Normalise(base))
    ensures Normalise(Normalise(base)) == Normalise(base)
  {
    if !HasProtocol(base) {
      var u := "http://" + base;
      assert u[..7] == "http://";
      assert forall i :: 7 <= i < |u| ==> u[i] == base[i - 7];
    }
  }

  // ---------------------------------------------------------------------
  // Following redirects
  // ---------------------------------------------------------------------

  /** 202, 201, 204, 200, 206, 205 and 304: the link is resolved. */
  predicate IsSuccess(status: int) {
    status in {200, 201, 202, 204, 205, 206, 304}
  }

  /** 301, 302, 300 and 303: follow the Location header. */
  predicate IsRedirect(status: int) {
    status in {300, 301, 302, 303}
  }

  /** A HEAD answer that redirects and carries a Location. */
  predicate Redirecting(p: Probe) {
    p.Answered? && IsRedirect(p.response.status) && p.response.location.Some?
  }

  /** A HEAD request for `u` redirects to a Location that resolves against `u`. */
  predicate RedirectsOnward(web: Web, u: string) {
    Redirecting(web.head(u)) && web.resolve(u, web.head(u).response.location.value).Some?
  }

  /** A HEAD request for `u` redirects, with a Location, to `v`. */
  predicate RedirectsTo(web: Web, u: string, v: string) {
    var p := web.head(u);
    p.Answered? && IsRedirect(p.response.status) && p.response.location.Some?
      && web.resolve(u, p.response.location.value) == Some(v)
  }

  predicate Resolves(web: Web, u: string) {
    web.head(u).Answered? && IsSuccess(web.head(u).response.status)
  }

  /** Where following the redirects ends. */
  datatype Hop = Stopped(outcome: Outcome) | Arrived(url: string) | GaveUp(url: string)

  /** Where it ends, and every URL a HEAD request was sent to, in order. */
  datatype Trace = Trace(hop: Hop, probed: seq<string>)

  /** The redirect loop of run(), from URL `curr` after `hops` redirects. */
  function Follow(web: Web, interrupted: nat -> bool, curr: string, hops: nat): (t: Trace)
    requires hops < MAX_HOPS
    ensures 1 <= |t.probed| <= MAX_HOPS - hops && t.probed[0] == curr
    ensures Redirecting(web.head(curr)) && web.resolve(curr, web.head(curr).response.location.value).None?
      ==> t == Trace(Stopped(Crash), [curr])
    decreases MAX_HOPS - hops
  {
    match web.head(curr)
    case UnknownHost => Trace(Stopped(Quiet), [curr])
    case Failed => Trace(Stopped(Crash), [curr])
    case Answered(r) =>
      if IsSuccess(r.status) then
        Trace(if interrupted(hops) then Stopped(Quiet) else Arrived(curr), [curr])
      else if IsRedirect(r.status) && r.location.Some? then
        match web.resolve(curr, r.location.value)
        case None => Trace(Stopped(Crash), [curr])
        case Some(next) =>
        if interrupted(hops) then Trace(Stopped(Quiet), [curr])
        else if hops + 1 == MAX_HOPS then Trace(GaveUp(next), [curr])
        else
          var t := Follow(web, interrupted, next, hops + 1);
          Trace(t.hop, [curr] + t.probed)
      else Trace(Stopped(Quiet), [curr])
  }

  /** The message sent when the redirects do not end within MAX_HOPS. */
  function Unresolved(host: string): string {
    "[" + host + "] (Unresolved after " + IntToString(MAX_HOPS) + " hops)"
  }

  /** What a resolver thread does, and the HEAD requests it sends on the way. */
  datatype Run = Run(outcome: Outcome, probed: seq<string>)

  function Resolution(web: Web, interrupted: nat -> bool, base: string): (r: Run)
    ensures !web.isUri(Normalise(base)) <==> r == Run(Refused, [])
    ensures web.isUri(Normalise(base)) ==> 1 <= |r.probed| <= MAX_HOPS && r.probed[0] == Normalise(base)
  {
    if !web.isUri(Normalise(base)) then Run(Refused, []) else
    var t := Follow(web, interrupted, Normalise(base), 0);
    match t.hop
    case Stopped(o) => Run(o, t.probed)
    case GaveUp(u) => Run(Reply(Unresolved(web.host(u))), t.probed)
    case Arrived(u) => Run(Fetch(Current, web, u), t.probed)
  }

  /** LinkResolver.run */
  method ResolveLink(web: Web, interrupted: nat -> bool, base: string) returns (out: Outcome, probed: seq<string>)
    ensures Run(out, probed) == Resolution(web, interrupted, base)
  {
    var start := Normalise(base);
    if !web.isUri(start) {
      return Refused, [];
    }
    var curr := start;
    var resolved := false;
    var hops: nat := 0;
    probed := [];
    while true
      invariant hops < MAX_HOPS && !resolved
      invariant Follow(web, interrupted, start, 0)
             == Trace(Follow(web, interrupted, curr, hops).hop, probed + Follow(web, interrupted, curr, hops).probed)
      decreases MAX_HOPS - hops
    {
      ghost var rest := Follow(web, interrupted, curr, hops);
      var probe := web.head(curr);
      probed := probed + [curr];
      if !probe.Answered? {
        out := if probe.UnknownHost? then Quiet else Crash;
        return;
      }
      var status := probe.response.status;
      if IsSuccess(status) {
        resolved := true;
      } else if IsRedirect(status) {
        if probe.response.location.None? {
          return Quiet, probed;
        }
        var next := web.resolve(curr, probe.response.location.value);
        if next.None? {
          return Crash, probed;
        }
        curr := next.value;
      } else {
        return Quiet, probed;
      }
      if interrupted(hops) {
        return Quiet, probed;
      }
      if resolved {
        assert rest.hop == Arrived(curr);
        break;
      }
      hops := hops + 1;
      if hops == MAX_HOPS {
        assert rest.hop == GaveUp(curr);
        break;
      }
      assert rest.probed == [rest.probed[0]] + Follow(web, interrupted, curr, hops).probed;
    }
    if hops == MAX_HOPS {
      out := Reply(Unresolved(web.host(curr)));
      return;
    }
    out := FetchData(Current, web, curr);
  }

  // ---------------------------------------------------------------------
  // Properties of the redirect loop
  // ---------------------------------------------------------------------

  /**
   * Each URL requested after the first is where the one before it redirected;
   * the loop arrives only at a URL that answered with a success status, and
   * gives up only after MAX_HOPS requests that all redirected.
   */
  lemma {:induction false} FollowChain(web: Web, interrupted: nat -> bool, curr: string, hops: nat)
    requires hops < MAX_HOPS
    ensures var t := Follow(web, interrupted, curr, hops);
      (forall i :: 0 <= i < |t.probed| - 1 ==> RedirectsTo(web, t.probed[i], t.probed[i + 1]))
      && (t.hop.Arrived? ==> t.hop.url == t.probed[|t.probed| - 1] && Resolves(web, t.hop.url))
      && (t.hop.GaveUp? ==> |t.probed| == MAX_HOPS - hops && RedirectsTo(web, t.probed[|t.probed| - 1], t.hop.url))
    decreases MAX_HOPS - hops
  {
    var t := Follow(web, interrupted, curr, hops);
    var p := web.head(curr);
    if p.Answered? && !IsSuccess(p.response.status) && IsRedirect(p.response.status)
      && p.response.location.Some? && web.resolve(curr, p.response.location.value).Some?
      && !interrupted(hops) && hops + 1 < MAX_HOPS
    {
      var next := web.resolve(curr, p.response.location.value).value;
      FollowChain(web, interrupted, next, hops + 1);
      var u := Follow(web, interrupted, next, hops + 1);
      assert t.probed == [curr] + u.probed;
      forall i | 0 <= i < |t.probed| - 1
        ensures RedirectsTo(web, t.probed[i], t.probed[i + 1])
      {
        if i > 0 {
          assert t.probed[i] == u.probed[i - 1] && t.probed[i + 1] == u.probed[i];
        }
      }
    }
  }

  /**
   * resolveLocation throws before the interrupt and hop checks: a redirect
   * whose Location does not resolve ends the thread with that exception,
   * straight after the request that returned it.
   */
  lemma {:induction false} UnresolvableLocationCrashes(web: Web, interrupted: nat -> bool, curr: string, hops: nat)
    requires hops < MAX_HOPS
    ensures var t := Follow(web, interrupted, curr, hops);
      var last := t.probed[|t.probed| - 1];
      Redirecting(web.head(last)) && web.resolve(last, web.head(last).response.location.value).None?
      ==> t.hop == Stopped(Crash)
    decreases MAX_HOPS - hops
  {
    var p := web.head(curr);
    if Redirecting(p) && web.resolve(curr, p.response.location.value).Some?
      && !interrupted(hops) && hops + 1 < MAX_HOPS
    {
      var next := web.resolve(curr, p.response.location.value).value;
      UnresolvableLocationCrashes(web, interrupted, next, hops + 1);
      var u := Follow(web, interrupted, next, hops + 1);
      assert Follow(web, interrupted, curr, hops) == Trace(u.hop, [curr] + u.probed);
      assert ([curr] + u.probed)[|u.probed|] == u.probed[|u.probed| - 1];
    }
  }

  /** Hence a link that URI.create accepts, and whose first answer redirects to an unresolvable Location, crashes after one request. */
  lemma FirstLocationUnresolvable(web: Web, interrupted: nat -> bool, base: string)
    requires web.isUri(Normalise(base))
    requires Redirecting(web.head(Normalise(base)))
    requires web.resolve(Normalise(base), web.head(Normalise(base)).response.location.value).None?
    ensures Resolution(web, interrupted, base) == Run(Crash, [Normalise(base)])
  {
  }

  lemma {:induction false} EndlessRedirectsFrom(web: Web, interrupted: nat -> bool, curr: string, hops: nat)
    requires hops < MAX_HOPS
    requires forall u :: RedirectsOnward(web, u)
    requires forall n :: !interrupted(n)
    ensures Follow(web, interrupted, curr, hops).hop.GaveUp?
    decreases MAX_HOPS - hops
  {
    assert RedirectsOnward(web, curr);
    if hops + 1 < MAX_HOPS {
      var next := web.resolve(curr, web.head(curr).response.location.value).value;
      EndlessRedirectsFrom(web, interrupted, next, hops + 1);
    }
  }

  /**
   * A link that URI.create accepts and that redirects for ever, each time to
   * a Location that resolves, is given up
   * after exactly five HEAD requests, with the "Unresolved after 5 hops"
   * message naming the host of the sixth location, and the page is never
   * fetched.
   */
  lemma EndlessRedirectsGiveUp(web: Web, interrupted: nat -> bool, base: string)
    requires web.isUri(Normalise(base))
    requires forall u :: RedirectsOnward(web, u)
    requires forall n :: !interrupted(n)
    ensures var r := Resolution(web, interrupted, base);
      |r.probed| == 5
      && (exists u :: RedirectsTo(web, r.probed[4], u) && r.outcome == Reply("[" + web.host(u) + "] (Unresolved after 5 hops)"))
  {
    EndlessRedirectsFrom(web, interrupted, Normalise(base), 0);
    FollowChain(web, interrupted, Normalise(base), 0);
    var t := Follow(web, interrupted, Normalise(base), 0);
    assert IntToString(MAX_HOPS) == "5";
    assert RedirectsTo(web, t.probed[4], t.hop.url);
  }

  /**
   * A link that URI.create accepts, and whose page answers the first HEAD
   * request with a success status, is fetched straight away, unless the
   * thread was interrupted.
   */
  lemma ResolvedAtOnce(web: Web, interrupted: nat -> bool, base: string)
    requires web.isUri(Normalise(base)) && Resolves(web, Normalise(base))
    ensures var r := Resolution(web, interrupted, base);
      r.probed == [Normalise(base)]
      && r.outcome == if interrupted(0) then Quiet else Fetch(Current, web, Normalise(base))
  {
  }

  /**
   * A status that is neither a success nor a redirect, or a redirect without
   * a Location, ends the thread without a message.
   */
  lemma OtherStatusQuiet(web: Web, interrupted: nat -> bool, base: string)
    requires web.isUri(Normalise(base))
    requires web.head(Normalise(base)).Answered?
    requires var r := web.head(Normalise(base)).response;
      !IsSuccess(r.status) && !(IsRedirect(r.status) && r.location.Some?)
    ensures Resolution(web, interrupted, base) == Run(Quiet, [Normalise(base)])
  {
  }

  /** A reply comes only from a chain of redirects that resolved, or that ran out of hops. */
  lemma ReplyNeedsChain(web: Web, interrupted: nat -> bool, base: string)
    requires Resolution(web, interrupted, base).outcome.Reply?
    ensures var p := Resolution(web, interrupted, base).probed;
      p[0] == Normalise(base)
      && (forall i :: 0 <= i < |p| - 1 ==> RedirectsTo(web, p[i], p[i + 1]))
      && (Resolves(web, p[|p| - 1]) || |p| == MAX_HOPS)
  {
    FollowChain(web, interrupted, Normalise(base), 0);
    var t := Follow(web, interrupted, Normalise(base), 0);
    assert t.hop.Arrived? || t.hop.GaveUp?;
  }

  // ---------------------------------------------------------------------
  // Fetching the page
  // ---------------------------------------------------------------------

  /** The two title scanners: LinkResolver's, and the older one inside LinkService. */
  datatype Variant = Current | Legacy

  function TitleOf(v: Variant, lines: seq<string>): string {
    match v
    case Current => Tidy(RawTitle(CurrentTags, lines))
    case Legacy => RawTitle(LowercaseTags, lines)
  }

  /** A content type matching (text/.+|.+xhtml.+): a page whose title is looked for. */
  predicate IsTextual(ct: string) {
    NoLineTerminator(ct)
      && ((StartsWith(ct, "text/") && |ct| > 5) || exists i: nat | 1 <= i && i + 6 <= |ct| :: OccursAt(ct, "xhtml", i))
  }

  /**
   * mime.split(";")[0]: the text before the first ';'. Java's split drops
   * trailing empty strings, so a non-empty content type made only of ';'
   * gives no parts at all and the index throws (None here).
   */
  function MimeType(ct: string): (r: Option<string>)
    ensures r.None? <==> ct != [] && forall i :: 0 <= i < |ct| ==> ct[i] == ';'
    ensures r.Some? ==> StartsWith(ct, r.value) && ';' !in r.value
    ensures r.Some? && |r.value| < |ct| ==> ct[|r.value|] == ';'
  {
    if ct != [] && forall i :: 0 <= i < |ct| ==> ct[i] == ';' then None
    else Some(ct[..SemicolonAt(ct)])
  }

  function SemicolonAt(ct: string): (k: nat)
    ensures k <= |ct| && (forall i :: 0 <= i < k ==> ct[i] != ';') && (k < |ct| ==> ct[k] == ';')
  {
    if ct == [] || ct[0] == ';' then 0 else 1 + SemicolonAt(ct[1..])
  }

  /** fetchData: what the GET of the resolved URL is reported as. */
  function Fetch(v: Variant, web: Web, u: string): (r: Outcome)
    ensures web.get(u).Unreadable? || web.get(u).contentType.None? ==> r == Crash
    ensures r.Reply? ==> StartsWith(r.text, "[" + web.host(u) + "] ")
    ensures r != Quiet
  {
    match web.get(u)
    case Unreadable => Crash
    case Page(ct, len, lines) =>
      var mime := MimeType(if ct.Some? then ct.value else "");
      var tag := "[" + web.host(u) + "] ";
      if mime.None? || ct.None? then Crash
      else if IsTextual(ct.value) then Reply(tag + TitleOf(v, lines))
      else if len == -1 then Reply(tag + mime.value + " (size unknown)")
      else Reply(tag + mime.value + " " + FormatBytes(len))
  }

  /** fetchData, reading the title line by line. */
  method FetchData(v: Variant, web: Web, u: string) returns (out: Outcome)
    ensures out == Fetch(v, web, u)
  {
    var page := web.get(u);
    if page.Unreadable? {
      return Crash;
    }
    var mime := MimeType(if page.contentType.Some? then page.contentType.value else "");
    if mime.None? || page.contentType.None? {
      return Crash;
    }
    var tag := "[" + web.host(u) + "] ";
    if IsTextual(page.contentType.value) {
      var title;
      if v == Current {
        title := GetTitle(page.lines);
      } else {
        title := GetTitleLowercase(page.lines);
      }
      out := Reply(tag + title);
    } else if page.contentLength == -1 {
      out := Reply(tag + mime.value + " (size unknown)");
    } else {
      out := Reply(tag + mime.value + " " + FormatBytes(page.contentLength));
    }
  }

  /** A text page's reply is the host in brackets followed by the title, whatever the page's size. */
  lemma TextPageReply(web: Web, u: string)
    requires web.get(u).Page? && web.get(u).contentType.Some?
    requires IsTextual(web.get(u).contentType.value)
    ensures Fetch(Current, web, u) == Reply("[" + web.host(u) + "] " + Tidy(RawTitle(CurrentTags, web.get(u).lines)))
  {
    var ct := web.get(u).contentType.value;
    assert MimeType(ct).Some? by {
      if StartsWith(ct, "text/") && |ct| > 5 {
        assert ct[..5][0] == 't';
      } else {
        var i: nat :| 1 <= i && i + 6 <= |ct| && OccursAt(ct, "xhtml", i);
        assert ct[i..i + 5] == "xhtml";
        assert ct[i] == ct[i..i + 5][0] == 'x';
      }
    }
  }

  // ---------------------------------------------------------------------
  // humanReadableByteCount
  // ---------------------------------------------------------------------

  function Pow1024(e: nat): (p: nat)
    ensures p >= 1
  {
    if e == 0 then 1 else 1024 * Pow1024(e - 1)
  }

  lemma {:induction false} Pow1024Monotone(e: nat, f: nat)
    requires e <= f
    ensures Pow1024(e) <= Pow1024(f)
  {
    if e < f {
      Pow1024Monotone(e, f - 1);
    }
  }

  /** The unit exponent: the largest `e` with 1024^e <= bytes (Math.log(bytes) / Math.log(1024), truncated). */
  function UnitExp(bytes: int): (e: nat)
    requires bytes >= 1024
    ensures 1 <= e && Pow1024(e) <= bytes < Pow1024(e + 1)
    decreases bytes
  {
    if bytes < 1024 * 1024 then 1
    else
      var q := bytes / 1024;
      var e := UnitExp(q);
      assert Pow1024(e + 1) == 1024 * Pow1024(e) <= 1024 * q <= bytes;
      assert bytes < 1024 * q + 1024 <= 1024 * Pow1024(e + 1);
      1 + e
  }

  /** `n` tenths is `bytes / unit` rounded to the nearest tenth, ties rounded up. */
  predicate RoundsHalfUp(bytes: int, unit: int, n: int) {
    2 * unit * n <= 20 * bytes + unit < 2 * unit * (n + 1)
  }

  /** bytes / 1024^e in tenths, rounded half up as String.format("%.1f") does. */
  function Tenths(bytes: nat, e: nat): (n: nat)
    ensures RoundsHalfUp(bytes, Pow1024(e), n)
  {
    var q := 2 * Pow1024(e);
    var a := 20 * bytes + Pow1024(e);
    DivBounds(a, q);
    a / q
  }

  lemma DivBounds(a: nat, q: int)
    requires q > 0
    ensures 0 <= a / q && q * (a / q) <= a < q * (a / q + 1)
  {
  }

  /** Byte counts of a Java `long` need no prefix beyond exa (the sixth). */
  lemma UnitExpBound(bytes: int)
    requires 1024 <= bytes <= LONG_MAX
    ensures UnitExp(bytes) <= 6
  {
    var e := UnitExp(bytes);
    if e > 6 {
      Pow1024Monotone(7, e);
    }
  }

  function FormatBytes(bytes: int): (r: string)
    requires bytes <= LONG_MAX
    ensures |r| >= 3 && r[|r| - 1] == 'B'
    ensures bytes < 1024 <==> r[|r| - 2] == ' '
    ensures bytes >= 1024 ==> r[|r| - 2..] == "iB" && r[|r| - 3] in UNIT_PREFIX[..6]
  {
    if bytes < 1024 then IntToString(bytes) + " B"
    else
      var e := UnitExp(bytes);
      UnitExpBound(bytes);
      var n := Tenths(bytes, e);
      NatToString(n / 10) + "." + [DigitChar(n % 10)] + " " + [UNIT_PREFIX[e - 1]] + "iB"
  }

  /**
   * Above 1023 bytes the figure shown lies between 1.0 and 1024.0 (1024.0 for
   * counts that round up to the next unit).
   */
  lemma FigureRange(bytes: int)
    requires 1024 <= bytes
    ensures 10 <= Tenths(bytes, UnitExp(bytes)) <= 10240
  {
    var e := UnitExp(bytes);
    var u := Pow1024(e);
    var n := Tenths(bytes, e);
    assert 2 * u * n <= 20 * bytes + u < 2 * u * (n + 1);
    assert u <= bytes < 1024 * u;
    if n < 10 {
      MulMonotone(2 * u, n + 1, 10);
    }
    if n > 10240 {
      MulMonotone(2 * u, 10241, n);
    }
  }

  lemma MulMonotone(c: nat, a: int, b: int)
    requires a <= b
    ensures c * a <= c * b
  {
  }

  /** Counts below 1024 are shown exactly, in bytes. */
  lemma FormatBytesSmall(bytes: int)
    requires bytes == 1023
    ensures FormatBytes(bytes) == "1023 B"
  {
  }

  lemma FormatBytesKibi(bytes: int)
    requires bytes == 2048 || bytes == 1536
    ensures FormatBytes(bytes) == if bytes == 2048 then "2.0 kiB" else "1.5 kiB"
  {
    assert UnitExp(bytes) == 1;
    assert Tenths(bytes, 1) == if bytes == 2048 then 20 else 15;
  }

}
