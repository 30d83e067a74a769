/**
 * The line-oriented <title> scan both link resolvers use instead of an HTML
 * parser (LinkResolver.getTitle and the older LinkService.LinkResolver.getTitle).
 * The two differ only in which tags they look for and in the tidying the
 * newer one applies afterwards, so the scan is written once over a set of tags.
 */
module Titles {
  import opened Strings

  /** What a page without a recognised title reports. */
  const NO_TITLE: string := "[No Title Set]"

  /**
   * The tags one scanner looks for: opening tags (checked in order, each
   * restarting the title), closing tags (checked in order, the first found
   * ends the title) and boundary tags (the end of the document head).
   */
  datatype Tags = Tags(opens: seq<string>, closes: seq<string>, boundaries: seq<string>)

  /** LinkResolver.getTitle: lower- and upper-case tags. */
  const CurrentTags: Tags :=
    Tags(["<title>", "<TITLE>"], ["</title>", "</TITLE>"], ["</head>", "<body>", "</HEAD>", "<BODY>"])

  /** LinkService.LinkResolver.getTitle: lower-case tags only. */
  const LowercaseTags: Tags := Tags(["<title>"], ["</title>"], ["</head>", "<body>"])

  /** The scanner's variables between lines: the `reading` flag and the title so far. */
  datatype Scan = Scan(reading: bool, title: string)

  datatype Opened = Opened(line: string, state: Scan)

  /** The opening-tag checks on one line: each tag found starts the title afresh after it. */
  function OpenTags(opens: seq<string>, line: string, st: Scan): (o: Opened)
    ensures (forall t :: t in opens ==> !Contains(line, t)) ==> o == Opened(line, st)
    ensures o.state.reading <==> st.reading || exists t :: t in opens && Contains(line, t)
  {
    if opens == [] then Opened(line, st)
    else if Contains(line, opens[0]) then OpenTags(opens[1..], After(line, opens[0]), Scan(true, ""))
    else OpenTags(opens[1..], line, st)
  }

  /** The text before the first closing tag, taking the tags in the order they are checked. */
  function CloseAt(closes: seq<string>, line: string): (r: Option<string>)
    ensures r.None? <==> forall t :: t in closes ==> !Contains(line, t)
  {
    if closes == [] then None
    else if Contains(line, closes[0]) then Some(Before(line, closes[0]))
    else CloseAt(closes[1..], line)
  }

  predicate HasBoundary(boundaries: seq<string>, line: string) {
    exists t :: t in boundaries && Contains(line, t)
  }

  datatype Step = Continue(next: Scan) | Done(title: string)

  /** What the scanner does with one line. */
  function StepLine(tags: Tags, line: string, st: Scan): Step {
    var o := OpenTags(tags.opens, line, st);
    var close := CloseAt(tags.closes, o.line);
    if o.state.reading && close.Some? then Done(o.state.title + close.value)
    else if HasBoundary(tags.boundaries, o.line) then Done(o.state.title)
    else if o.state.reading then Continue(Scan(true, o.state.title + o.line))
    else Continue(o.state)
  }

  /** The title the scan returns when it starts on `lines` in state `st`. */
  function ScanFrom(tags: Tags, lines: seq<string>, st: Scan): string
    decreases |lines|
  {
    if lines == [] then st.title
    else match StepLine(tags, lines[0], st)
      case Done(t) => t
      case Continue(next) => ScanFrom(tags, lines[1..], next)
  }

  /** The untidied title of a page whose body reads as `lines`. */
  function RawTitle(tags: Tags, lines: seq<string>): string {
    ScanFrom(tags, lines, Scan(false, NO_TITLE))
  }

  /** The scanning loop: one line at a time, stopping at a closing tag or the end of the head. */
  method ScanTitle(tags: Tags, lines: seq<string>) returns (title: string)
    ensures title == RawTitle(tags, lines)
  {
    var reading := false;
    title := NO_TITLE;
    var i := 0;
    while i < |lines|
      invariant 0 <= i <= |lines|
      invariant ScanFrom(tags, lines[i..], Scan(reading, title)) == RawTitle(tags, lines)
    {
      assert lines[i..][0] == lines[i] && lines[i..][1..] == lines[i + 1..];
      var o := OpenTags(tags.opens, lines[i], Scan(reading, title));
      var line := o.line;
      reading, title := o.state.reading, o.state.title;
      var close := CloseAt(tags.closes, line);
      if reading && close.Some? {
        title := title + close.value;
        return;
      }
      if HasBoundary(tags.boundaries, line) {
        return;
      }
      if reading {
        title := title + line;
      }
      i := i + 1;
    }
  }

  // ---------------------------------------------------------------------
  // Properties of the scan
  // ---------------------------------------------------------------------

  predicate NoOpenTag(tags: Tags, line: string) {
    forall t :: t in tags.opens ==> !Contains(line, t)
  }

  /** A line holding none of the tags the scanner looks for. */
  predicate Plain(tags: Tags, line: string) {
    NoOpenTag(tags, line) && (forall t :: t in tags.closes ==> !Contains(line, t)) && !HasBoundary(tags.boundaries, line)
  }

  /**
   * No title is reported when no opening tag occurs before the first line that
   * ends the head (or before the end of the page).
   */
  lemma {:induction false} NoOpeningTagNoTitle(tags: Tags, lines: seq<string>, k: nat)
    requires k <= |lines|
    requires forall i :: 0 <= i < k ==> NoOpenTag(tags, lines[i])
    requires k < |lines| ==> NoOpenTag(tags, lines[k]) && HasBoundary(tags.boundaries, lines[k])
    ensures RawTitle(tags, lines) == NO_TITLE
  {
    if lines != [] {
      var st := Scan(false, NO_TITLE);
      assert OpenTags(tags.opens, lines[0], st) == Opened(lines[0], st);
      if k > 0 && !HasBoundary(tags.boundaries, lines[0]) {
        assert StepLine(tags, lines[0], st) == Continue(st);
        NoOpeningTagNoTitle(tags, lines[1..], k - 1);
      }
    }
  }

  function Concat(lines: seq<string>): (r: string)
    ensures |r| == 0 <==> forall i :: 0 <= i < |lines| ==> lines[i] == []
  {
    if lines == [] then [] else lines[0] + Concat(lines[1..])
  }

  /**
   * While a title is being read, the lines that hold no tag are appended to
   * it as they are, with no separator between them.
   */
  lemma {:induction false} PlainLinesConcatenated(tags: Tags, middle: seq<string>, rest: seq<string>, t: string)
    requires forall i :: 0 <= i < |middle| ==> Plain(tags, middle[i])
    ensures ScanFrom(tags, middle + rest, Scan(true, t)) == ScanFrom(tags, rest, Scan(true, t + Concat(middle)))
  {
    if middle != [] {
      var lines := middle + rest;
      var t' := t + middle[0];
      assert ScanFrom(tags, lines, Scan(true, t)) == ScanFrom(tags, middle[1..] + rest, Scan(true, t')) by {
        assert lines[0] == middle[0] && lines[1..] == middle[1..] + rest;
        assert OpenTags(tags.opens, middle[0], Scan(true, t)) == Opened(middle[0], Scan(true, t));
        assert StepLine(tags, middle[0], Scan(true, t)) == Continue(Scan(true, t'));
      }
      PlainLinesConcatenated(tags, middle[1..], rest, t');
      assert t' + Concat(middle[1..]) == t + Concat(middle) by {
        assert Concat(middle) == middle[0] + Concat(middle[1..]);
      }
    } else {
      assert t + Concat(middle) == t && middle + rest == rest;
    }
  }

  /**
   * A title opened by the first opening tag on one line and closed by the
   * first closing tag on a later line is the rest of the first line, the lines
   * in between and the start of the last line, joined with nothing between them.
   */
  lemma {:induction false} MultiLineTitle(tags: Tags, first: string, middle: seq<string>, last: string, rest: seq<string>)
    requires tags.opens != [] && tags.closes != []
    requires Contains(first, tags.opens[0]) && Plain(tags, After(first, tags.opens[0]))
    requires forall i :: 0 <= i < |middle| ==> Plain(tags, middle[i])
    requires NoOpenTag(tags, last) && Contains(last, tags.closes[0])
    ensures RawTitle(tags, [first] + middle + [last] + rest)
         == After(first, tags.opens[0]) + Concat(middle) + Before(last, tags.closes[0])
  {
    var head := After(first, tags.opens[0]);
    var lines := [first] + middle + [last] + rest;
    var tail := [last] + rest;
    var t := head + Concat(middle);
    assert lines[0] == first && lines[1..] == middle + tail;
    OpeningLine(tags, first);
    assert RawTitle(tags, lines) == ScanFrom(tags, middle + tail, Scan(true, head));
    PlainLinesConcatenated(tags, middle, tail, head);
    assert tail[0] == last;
    ClosingLine(tags, last, t);
    assert ScanFrom(tags, tail, Scan(true, t)) == t + Before(last, tags.closes[0]);
  }

  lemma OpeningLine(tags: Tags, first: string)
    requires tags.opens != [] && Contains(first, tags.opens[0]) && Plain(tags, After(first, tags.opens[0]))
    ensures StepLine(tags, first, Scan(false, NO_TITLE)) == Continue(Scan(true, After(first, tags.opens[0])))
  {
    var head := After(first, tags.opens[0]);
    assert OpenTags(tags.opens[1..], head, Scan(true, "")) == Opened(head, Scan(true, ""));
    assert "" + head == head;
  }

  lemma ClosingLine(tags: Tags, last: string, t: string)
    requires tags.closes != [] && NoOpenTag(tags, last) && Contains(last, tags.closes[0])
    ensures StepLine(tags, last, Scan(true, t)) == Done(t + Before(last, tags.closes[0]))
  {
    assert OpenTags(tags.opens, last, Scan(true, t)) == Opened(last, Scan(true, t));
  }

  // ---------------------------------------------------------------------
  // Tidying: title.trim().replaceAll("\\s\\s+", " ")
  // ---------------------------------------------------------------------

  /** No two neighbouring characters are both whitespace. */
  predicate NoDoubleSpace(s: string) {
    forall i :: 0 <= i < |s| - 1 ==> !DoubleSpaceAt(s, i)
  }

  /** Whitespace at `i` and at `i + 1`. */
  predicate DoubleSpaceAt(s: string, i: int)
    requires 0 <= i < |s| - 1
  {
    IsSpace(s[i]) && IsSpace(s[i + 1])
  }

  /** The characters of `s` that are not whitespace, in order. */
  function NonSpace(s: string): string {
    if s == [] then [] else (if IsSpace(s[0]) then [] else [s[0]]) + NonSpace(s[1..])
  }

  /** The length of the run of whitespace that `s` starts with. */
  function SpaceRun(s: string): (n: nat)
    ensures n <= |s|
    ensures forall i :: 0 <= i < n ==> IsSpace(s[i])
    ensures n < |s| ==> !IsSpace(s[n])
  {
    if s != [] && IsSpace(s[0]) then 1 + SpaceRun(s[1..]) else 0
  }

  lemma {:induction false} NonSpaceSkip(s: string, n: nat)
    requires n <= |s| && forall i :: 0 <= i < n ==> IsSpace(s[i])
    ensures NonSpace(s) == NonSpace(s[n..])
  {
    if n > 0 {
      NonSpaceSkip(s[1..], n - 1);
      assert s[1..][n - 1..] == s[n..];
    }
  }

  /**
   * replaceAll("\\s\\s+", " "): every run of two or more whitespace characters
   * becomes one space; a lone whitespace character is kept as it is.
   */
  function Collapse(s: string): (r: string)
    ensures |r| <= |s| && (r == [] <==> s == [])
    ensures s != [] ==> (IsSpace(r[0]) <==> IsSpace(s[0]))
    ensures s != [] && !IsSpace(s[0]) ==> r[0] == s[0]
    ensures s != [] && !IsSpace(s[|s| - 1]) ==> r[|r| - 1] == s[|s| - 1]
    ensures NoDoubleSpace(r)
    ensures NonSpace(r) == NonSpace(s)
    decreases |s|
  {
    if s == [] then []
    else
      var n := if IsSpace(s[0]) then SpaceRun(s) else 1;
      var head := if n >= 2 then " " else s[..1];
      var tail := Collapse(s[n..]);
      var r := head + tail;
      assert r[1..] == tail;
      assert NoDoubleSpace(r) by {
        forall i | 0 <= i < |r| - 1
          ensures !DoubleSpaceAt(r, i)
        {
          if i > 0 {
            assert !DoubleSpaceAt(tail, i - 1);
          }
        }
      }
      assert NonSpace(r) == NonSpace(s) by {
        if IsSpace(s[0]) {
          NonSpaceSkip(s, n);
        } else {
          assert s[1..] == s[n..];
        }
      }
      r
  }

  /** A run of whitespace of length n, followed by the end or by a non-blank character, is the run SpaceRun finds. */
  lemma {:induction false} SpaceRunIs(s: string, n: nat)
    requires n <= |s| && forall i :: 0 <= i < n ==> IsSpace(s[i])
    requires n == |s| || !IsSpace(s[n])
    ensures SpaceRun(s) == n
    decreases n
  {
    if n > 0 {
      SpaceRunIs(s[1..], n - 1);
    }
  }

  /** A non-blank character is kept, in front of the rest collapsed. */
  lemma CollapseNonSpace(c: char, s: string)
    requires !IsSpace(c)
    ensures Collapse([c] + s) == [c] + Collapse(s)
  {
    assert ([c] + s)[1..] == s && ([c] + s)[..1] == [c];
  }

  /** Text that ends in a non-blank character collapses on its own, whatever follows it. */
  lemma {:induction false} CollapseSplit(a: string, b: string)
    requires a == [] || !IsSpace(a[|a| - 1])
    ensures Collapse(a + b) == Collapse(a) + Collapse(b)
    decreases |a|
  {
    if a == [] {
      assert a + b == b;
    } else {
      var s := a + b;
      var n := if IsSpace(a[0]) then SpaceRun(a) else 1;
      var head := if n >= 2 then " " else a[..1];
      CollapseSplit(a[n..], b);
      var cr, cb := Collapse(a[n..]), Collapse(b);
      assert Collapse(a) == head + cr by {
        CollapseStep(a, n);
      }
      assert Collapse(s) == head + (cr + cb) by {
        assert IsSpace(s[0]) == IsSpace(a[0]);
        if IsSpace(a[0]) {
          assert n < |a|;
          SpaceRunIs(s, n);
        }
        CollapseStep(s, n);
        DropFromConcat(a, b, n);
      }
      ConcatAssoc(head, cr, cb);
    }
  }

  /** Collapse keeps the first character, or replaces the leading run of two or more with a space. */
  lemma CollapseStep(s: string, n: nat)
    requires s != [] && n == if IsSpace(s[0]) then SpaceRun(s) else 1
    ensures Collapse(s) == (if n >= 2 then " " else s[..1]) + Collapse(s[n..])
  {
  }

  lemma DropFromConcat(a: string, b: string, n: nat)
    requires 1 <= n <= |a|
    ensures (a + b)[..1] == a[..1] && (a + b)[n..] == a[n..] + b
  {
  }

  lemma ConcatAssoc(x: string, y: string, z: string)
    ensures x + (y + z) == (x + y) + z
  {
  }

  /** A run of whitespace before the end or before a non-blank character: one space when it is two or more long. */
  lemma CollapseRun(w: string, b: string)
    requires w != [] && forall i :: 0 <= i < |w| ==> IsSpace(w[i])
    requires b == [] || !IsSpace(b[0])
    ensures Collapse(w + b) == (if |w| >= 2 then " " else w) + Collapse(b)
  {
    var s := w + b;
    SpaceRunIs(s, |w|);
    assert s[|w|..] == b;
    assert |w| == 1 ==> s[..1] == w;
  }

  /**
   * Each whitespace run between non-blank text is replaced on its own: a run
   * of two or more becomes one space and a single whitespace character stays.
   */
  lemma CollapseAround(a: string, w: string, b: string)
    requires a == [] || !IsSpace(a[|a| - 1])
    requires w != [] && forall i :: 0 <= i < |w| ==> IsSpace(w[i])
    requires b == [] || !IsSpace(b[0])
    ensures Collapse(a + w + b) == Collapse(a) + (if |w| >= 2 then " " else w) + Collapse(b)
  {
    var run := if |w| >= 2 then " " else w;
    assert a + w + b == a + (w + b);
    CollapseSplit(a, w + b);
    CollapseRun(w, b);
    ConcatAssoc(Collapse(a), run, Collapse(b));
  }

  /** "a  b" is tidied to "a b". */
  lemma CollapseTwoSpaces()
    ensures Collapse("a  b") == "a b"
  {
    CollapseAround("a", "  ", "b");
    CollapseIdentity("a");
    CollapseIdentity("b");
    assert "a" + "  " + "b" == "a  b";
  }

  /** LinkResolver's final title: trimmed, with whitespace runs collapsed. */
  function Tidy(title: string): (r: string)
    ensures r == [] || (!IsTrimmable(r[0]) && !IsTrimmable(r[|r| - 1]))
    ensures NoDoubleSpace(r)
    ensures NonSpace(r) == NonSpace(Trim(title))
  {
    var t := Trim(title);
    CollapseKeepsEnds(t);
    Collapse(t)
  }

  /**
   * A title without blank ends is not trimmed, and each whitespace run inside
   * it is replaced as Collapse replaces it.
   */
  lemma TidyAround(a: string, w: string, b: string)
    requires a != [] && !IsTrimmable(a[0]) && !IsSpace(a[|a| - 1])
    requires w != [] && forall i :: 0 <= i < |w| ==> IsSpace(w[i])
    requires b != [] && !IsSpace(b[0]) && !IsTrimmable(b[|b| - 1])
    ensures Tidy(a + w + b) == Collapse(a) + (if |w| >= 2 then " " else w) + Collapse(b)
  {
    var t := a + w + b;
    assert t[0] == a[0] && t[|t| - 1] == b[|b| - 1];
    assert TrimStart(t) == t;
    assert TrimEnd(t) == t;
    CollapseAround(a, w, b);
  }

  /** Collapsing whitespace keeps ends that are not blank. */
  lemma CollapseKeepsEnds(t: string)
    requires t == [] || (!IsTrimmable(t[0]) && !IsTrimmable(t[|t| - 1]))
    ensures var r := Collapse(t); r == [] || (!IsTrimmable(r[0]) && !IsTrimmable(r[|r| - 1]))
  {
    if t != [] {
      assert !IsSpace(t[0]) && !IsSpace(t[|t| - 1]);
    }
  }

  /** LinkResolver.getTitle */
  method GetTitle(lines: seq<string>) returns (title: string)
    ensures title == Tidy(RawTitle(CurrentTags, lines))
  {
    title := ScanTitle(CurrentTags, lines);
    title := Tidy(title);
  }

  /** LinkService.LinkResolver.getTitle: no tidying at all. */
  method GetTitleLowercase(lines: seq<string>) returns (title: string)
    ensures title == RawTitle(LowercaseTags, lines)
  {
    title := ScanTitle(LowercaseTags, lines);
  }

  /** A page without a title reports "[No Title Set]" after tidying too. */
  lemma TidyNoTitle()
    ensures Tidy(NO_TITLE) == NO_TITLE
  {
    var s := NO_TITLE;
    assert TrimStart(s) == s;
    assert TrimEnd(s) == s;
    assert NoDoubleSpace(s) by {
      assert forall i :: 0 <= i < |s| ==> (IsSpace(s[i]) <==> i == 3 || i == 9);
    }
    CollapseIdentity(s);
  }

  /** Text with no two neighbouring whitespace characters is left as it is. */
  lemma {:induction false} CollapseIdentity(s: string)
    requires NoDoubleSpace(s)
    ensures Collapse(s) == s
  {
    if s != [] {
      assert NoDoubleSpace(s[1..]) by {
        forall i | 0 <= i < |s| - 2
          ensures !DoubleSpaceAt(s[1..], i)
        {
          assert !DoubleSpaceAt(s, i + 1);
        }
      }
      CollapseIdentity(s[1..]);
      if IsSpace(s[0]) {
        assert SpaceRun(s) == 1 by {
          if |s| > 1 { assert !DoubleSpaceAt(s, 0); }
        }
      }
      assert s == s[..1] + s[1..];
    }
  }
}
