/** grep's regular expression matcher and its line buffer.

    C strings are sequences without the terminating NUL; Char gives the NUL back. */
module Grep {
  const NUL: char := '\0'
  const NEWLINE: char := '\n'

  /** One character of a C string, the NUL at its end included. */
  function Char(s: string, i: nat): char {
    if i < |s| then s[i] else NUL
  }

  predicate CString(s: string) { NUL !in s }

  // ---- what a pattern means ----

  /** c is '.' for any character. */
  datatype Item = One(c: char) | Star(c: char) | End

  /** The items of a pattern, left to right: x* before $ before single characters. */
  function Items(re: string): seq<Item>
    decreases |re|
  {
    if re == "" then []
    else if |re| >= 2 && re[1] == '*' then [Star(re[0])] + Items(re[2..])
    else if re == "$" then [End]
    else [One(re[0])] + Items(re[1..])
  }

  predicate Is(c: char, x: char) { c == '.' || c == x }

  /** The item matches text[i..j]. */
  predicate Covers(it: Item, text: string, i: nat, j: nat)
    requires i <= j <= |text|
  {
    match it
    case One(c) => j == i + 1 && Is(c, text[i])
    case Star(c) => forall k :: i <= k < j ==> Is(c, text[k])
    case End => i == j == |text|
  }

  predicate Cut(items: seq<Item>, text: string, cuts: seq<nat>, i: nat)
    requires i < |items| && |cuts| == |items| + 1
  {
    cuts[i] <= cuts[i + 1] <= |text| && Covers(items[i], text, cuts[i], cuts[i + 1])
  }

  /** cuts divides a prefix of text among the items. */
  ghost predicate Fits(items: seq<Item>, text: string, cuts: seq<nat>) {
    && |cuts| == |items| + 1 && cuts[0] == 0
    && forall i :: 0 <= i < |items| ==> Cut(items, text, cuts, i)
  }

  /** The items match at the beginning of text. */
  ghost predicate Here(items: seq<Item>, text: string) {
    exists cuts :: Fits(items, text, cuts)
  }

  /** The pattern matches text: at the beginning after ^, anywhere without it. */
  ghost predicate Matches(re: string, text: string) {
    if Char(re, 0) == '^' then Here(Items(re[1..]), text)
    else exists k :: 0 <= k <= |text| && Here(Items(re), text[k..])
  }

  // ---- one item at a time ----

  lemma HereNothing(text: string)
    ensures Here([], text)
  {
    assert Fits([], text, [0]);
  }

  lemma HereFirst(it: Item, items: seq<Item>, text: string, k: nat)
    requires k <= |text| && Covers(it, text, 0, k) && Here(items, text[k..])
    ensures Here([it] + items, text)
  {
    hide Covers;
    var cuts :| Fits(items, text[k..], cuts);
    var all := [0] + seq(|cuts|, i requires 0 <= i < |cuts| => cuts[i] + k);
    forall i | 0 <= i < |items| + 1
      ensures Cut([it] + items, text, all, i)
    {
      if i > 0 {
        assert Cut(items, text[k..], cuts, i - 1);
        CoversShift(items[i - 1], text, k, cuts[i - 1], cuts[i]);
      }
    }
    assert Fits([it] + items, text, all);
  }

  lemma CoversShift(it: Item, text: string, k: nat, i: nat, j: nat)
    requires k <= |text| && i <= j <= |text| - k
    ensures Covers(it, text[k..], i, j) <==> Covers(it, text, i + k, j + k)
  {
  }

  lemma HereRest(it: Item, items: seq<Item>, text: string) returns (k: nat)
    requires Here([it] + items, text)
    ensures k <= |text| && Covers(it, text, 0, k) && Here(items, text[k..])
  {
    hide Covers;
    var all: seq<nat> :| Fits([it] + items, text, all);
    assert Cut([it] + items, text, all, 0);
    k := all[1];
    CutsAbove([it] + items, text, all);
    var cuts: seq<nat> := seq(|items| + 1, i requires 0 <= i < |items| + 1 => all[i + 1] - k);
    forall i | 0 <= i < |items|
      ensures Cut(items, text[k..], cuts, i)
    {
      assert Cut([it] + items, text, all, i + 1);
      CoversShift(items[i], text, k, cuts[i], cuts[i + 1]);
    }
    assert Fits(items, text[k..], cuts);
  }

  lemma CutsAbove(items: seq<Item>, text: string, all: seq<nat>)
    requires Fits(items, text, all) && |items| >= 1
    ensures forall i :: 1 <= i < |all| ==> all[1] <= all[i]
  {
    hide Covers;
    var i := 1;
    while i < |all| - 1
      invariant 1 <= i < |all| && forall j :: 1 <= j <= i ==> all[1] <= all[j] <= all[i]
    {
      assert Cut(items, text, all, i);
      i := i + 1;
    }
  }

  // ---- the matcher ----

  /** matchhere: exactly the declarative meaning. */
  method Matchhere(re: string, text: string) returns (r: bool)
    requires CString(re) && CString(text)
    ensures r <==> Here(Items(re), text)
    decreases |re|, 0
  {
    if Char(re, 0) == NUL {
      HereNothing(text);
      return true;
    }
    if Char(re, 1) == '*' {
      r := Matchstar(re[0], re[2..], text);
      return;
    }
    if Char(re, 0) == '$' && Char(re, 1) == NUL {
      EndMeans(text);
      return Char(text, 0) == NUL;
    }
    if Char(text, 0) != NUL && (re[0] == '.' || re[0] == Char(text, 0)) {
      r := Matchhere(re[1..], text[1..]);
      OneMeans(re[0], Items(re[1..]), text);
      return;
    }
    OneMeans(re[0], Items(re[1..]), text);
    r := false;
  }

  /** matchstar: c* and then re. */
  method Matchstar(c: char, re: string, text: string) returns (r: bool)
    requires CString(re) && CString(text)
    ensures r <==> Here([Star(c)] + Items(re), text)
    decreases |re|, 1
  {
    var i := 0;
    while true
      invariant 0 <= i <= |text| && Covers(Star(c), text, 0, i)
      invariant forall j :: 0 <= j < i ==> !Here(Items(re), text[j..])
      decreases |text| - i
    {
      r := Matchhere(re, text[i..]);
      if r {
        HereFirst(Star(c), Items(re), text, i);
        return true;
      }
      if Char(text, i) == NUL || !(text[i] == c || c == '.') {
        NoStar(c, Items(re), text, i);
        return false;
      }
      i := i + 1;
    }
  }

  lemma NoStar(c: char, items: seq<Item>, text: string, n: nat)
    requires n <= |text| && forall j :: 0 <= j <= n ==> !Here(items, text[j..])
    requires n == |text| || !Is(c, text[n])
    ensures !Here([Star(c)] + items, text)
  {
    if Here([Star(c)] + items, text) {
      var k := HereRest(Star(c), items, text);
    }
  }

  lemma EndMeans(text: string)
    ensures Here([End], text) <==> text == ""
  {
    if text == "" {
      assert Cut([End], text, [0, 0], 0);
      assert Fits([End], text, [0, 0]);
    }
    if cuts :| Fits([End], text, cuts) {
      assert Cut([End], text, cuts, 0);
    }
  }

  lemma OneMeans(c: char, items: seq<Item>, text: string)
    ensures Here([One(c)] + items, text) <==> text != "" && Is(c, text[0]) && Here(items, text[1..])
  {
    if Here([One(c)] + items, text) {
      var k := HereRest(One(c), items, text);
    }
    if text != "" && Is(c, text[0]) && Here(items, text[1..]) {
      HereFirst(One(c), items, text, 1);
    }
  }

  /** match is sound and complete. */
  method Match(re: string, text: string) returns (r: bool)
    requires CString(re) && CString(text)
    ensures r <==> Matches(re, text)
  {
    if Char(re, 0) == '^' {
      r := Matchhere(re[1..], text);
      return;
    }
    var i := 0;
    while true
      invariant 0 <= i <= |text| && forall k :: 0 <= k < i ==> !Here(Items(re), text[k..])
      decreases |text| - i
    {
      r := Matchhere(re, text[i..]);
      if r {
        return true;
      }
      if Char(text, i) == NUL {
        return false;
      }
      i := i + 1;
    }
  }

  // ---- grep's buffer ----

  const BUFSIZE: nat := 1024

  /** The index of the first newline, |s| for none. */
  function Line(s: string): (n: nat)
    ensures n <= |s| && (n < |s| ==> s[n] == NEWLINE) && NEWLINE !in s[..n]
  {
    if s == "" then 0 else if s[0] == NEWLINE then 0
    else
      var n := Line(s[1..]);
      assert s[..n + 1] == [s[0]] + s[1..][..n];
      n + 1
  }

  /** What grep should print for the input s: its lines that match, with their newlines.  What
      follows the last newline is not a line. */
  ghost function Output(re: string, s: string): string
    decreases |s|
  {
    var n := Line(s);
    if n == |s| then ""
    else (if Matches(re, s[..n]) then s[..n + 1] else "") + Output(re, s[n + 1..])
  }

  lemma NoLine(re: string, s: string)
    requires NEWLINE !in s
    ensures Output(re, s) == ""
  {
  }

  lemma {:induction false} LineOfLonger(s: string, t: string)
    ensures Line(s) < |s| ==> Line(s + t) == Line(s)
  {
    if s != "" && s[0] != NEWLINE {
      assert (s + t)[1..] == s[1..] + t;
      LineOfLonger(s[1..], t);
    }
  }

  lemma OutputLine(re: string, s: string, n: nat)
    requires n == Line(s) < |s|
    ensures Output(re, s) == (if Matches(re, s[..n]) then s[..n + 1] else "") + Output(re, s[n + 1..])
  {
  }

  /** The 1023 characters from i on contain no newline and are followed by another character. */
  predicate LongFrom(input: string, i: nat) {
    i + BUFSIZE - 1 < |input| && NEWLINE !in input[i..i + BUFSIZE - 1]
  }

  ghost predicate LongLine(input: string) {
    exists i: nat :: LongFrom(input, i)
  }

  /** strchr(p, '\n') finds a newline in p = s: there is one, and no NUL before it. */
  predicate Visible(s: string) {
    Line(s) < |s| && NUL !in s[..Line(s)]
  }

  /** The first line of s is one that grep cannot get past: it does not fit the buffer, or it holds a
      NUL. */
  predicate Blocked(s: string) {
    LongFrom(s, 0) || (Line(s) < |s| && NUL in s[..Line(s)])
  }

  /** The lines before the first blocked one; all of s when there is none. */
  function Fitting(s: string): string
    decreases |s|
  {
    var n := Line(s);
    if Blocked(s) then ""
    else if n == |s| then s
    else s[..n + 1] + Fitting(s[n + 1..])
  }

  // ---- lines ----

  lemma NoneBefore(s: string, c: char, n: nat)
    requires n <= |s| && c !in s[..n]
    ensures forall i :: 0 <= i < n ==> s[i] != c
  {
    forall i | 0 <= i < n
      ensures s[i] != c
    {
      assert s[i] == s[..n][i];
    }
  }

  lemma LineAt(s: string, n: nat)
    requires n < |s| && s[n] == NEWLINE && NEWLINE !in s[..n]
    ensures Line(s) == n
  {
    NoneBefore(s, NEWLINE, n);
    NoneBefore(s, NEWLINE, Line(s));
  }

  lemma LineBefore(s: string, k: nat)
    requires 0 < k <= |s| && s[k - 1] == NEWLINE
    ensures Line(s) < k && Line(s[..k]) == Line(s)
  {
    NoneBefore(s, NEWLINE, Line(s));
    assert s[..k][..Line(s)] == s[..Line(s)];
    LineAt(s[..k], Line(s));
  }

  lemma {:induction false} OutputSplit(re: string, s: string, k: nat)
    requires k <= |s| && (k == 0 || s[k - 1] == NEWLINE)
    ensures Output(re, s) == Output(re, s[..k]) + Output(re, s[k..])
    decreases |s|
  {
    hide Matches, Line, Output;
    if k == 0 {
      NoLine(re, s[..0]);
      assert s[0..] == s;
    } else {
      var n := Line(s);
      LineBefore(s, k);
      OutputLine(re, s, n);
      OutputLine(re, s[..k], n);
      var t := s[n + 1..];
      OutputSplit(re, t, k - n - 1);
      assert s[..k][n + 1..] == t[..k - n - 1] && t[k - n - 1..] == s[k..];
      assert s[..k][..n] == s[..n] && s[..k][..n + 1] == s[..n + 1];
    }
  }

  lemma {:induction false} FittingIsPrefix(s: string)
    ensures Fitting(s) <= s && (Fitting(s) == s || Fitting(s) == "" || Fitting(s)[|Fitting(s)| - 1] == NEWLINE)
    decreases |s|
  {
    hide Blocked, Line;
    var n := Line(s);
    if !Blocked(s) && n < |s| {
      FittingIsPrefix(s[n + 1..]);
      assert s == s[..n + 1] + s[n + 1..];
    }
  }

  /** What is printed is everything exactly when no line from the first blocked one on matches. */
  lemma PrintsAllExactly(re: string, s: string)
    ensures Fitting(s) <= s
    ensures Output(re, Fitting(s)) == Output(re, s) <==> Output(re, s[|Fitting(s)|..]) == ""
  {
    hide Output, Fitting;
    FittingIsPrefix(s);
    var k := |Fitting(s)|;
    assert s[..k] == Fitting(s);
    if k == |s| {
      assert s[..k] == s;
      NoLine(re, s[k..]);
    } else {
      OutputSplit(re, s, k);
    }
  }

  lemma LongLater(s: string, k: nat, i: nat)
    requires k <= |s|
    ensures LongFrom(s[k..], i) ==> LongFrom(s, k + i)
  {
    if i + BUFSIZE - 1 < |s| - k { assert s[k..][i..i + BUFSIZE - 1] == s[k + i..k + i + BUFSIZE - 1]; }
  }

  /** Without long lines and NULs nothing is lost. */
  lemma {:induction false} AllFits(s: string)
    requires CString(s) && !LongLine(s)
    ensures Fitting(s) == s
    decreases |s|
  {
    hide LongFrom, Line;
    var n := Line(s);
    if n < |s| {
      forall i: nat {:trigger LongFrom(s[n + 1..], i)}
        ensures !LongFrom(s[n + 1..], i)
      {
        LongLater(s, n + 1, i);
      }
      AllFits(s[n + 1..]);
      assert s == s[..n + 1] + s[n + 1..];
    }
  }

  /** A line of 1023 characters and its newline: it matches, and grep prints nothing. */
  lemma LongLineIsLost() returns (s: string)
    ensures LongLine(s) && CString(s) && Output("", s) == s != "" && Fitting(s) == ""
  {
    var a := seq(BUFSIZE - 1, _ => 'a');
    s := a + [NEWLINE];
    assert s[0..BUFSIZE - 1] == a && s[..BUFSIZE - 1] == a;
    assert LongFrom(s, 0);
    LineAt(s, BUFSIZE - 1);
    assert s[..BUFSIZE] == s && s[BUFSIZE..] == "";
    EmptyMatches(a);
    OutputLine("", s, BUFSIZE - 1);
    NoLine("", "");
  }

  lemma EmptyMatches(text: string)
    ensures Matches("", text)
  {
    HereNothing(text);
    assert text[0..] == text;
  }

  // ---- the loops ----

  lemma OneLinePrints(re: string, r: string, n: nat)
    requires n == Line(r) < |r|
    ensures Output(re, r[..n + 1]) == if Matches(re, r[..n]) then r[..n + 1] else ""
  {
    hide Matches, Output, Line;
    var l := r[..n + 1];
    assert l[..n] == r[..n] && l[..n + 1] == l && l[n + 1..] == "";
    LineAt(l, n);
    OutputLine(re, l, n);
    NoLine(re, "");
  }

  lemma OneLineFits(r: string, more: string, n: nat)
    requires n == Line(r) && Visible(r) && |r| <= BUFSIZE - 1
    ensures Fitting(r + more) == r[..n + 1] + Fitting(r[n + 1..] + more)
  {
    hide Line;
    var s := r + more;
    LineOfLonger(r, more);
    assert s[..n] == r[..n] && s[..n + 1] == r[..n + 1] && s[n + 1..] == r[n + 1..] + more;
    NotBlocked(s, n);
  }

  /** One line of the buffer has been dealt with. */
  lemma OneLine(re: string, buf: string, more: string, k: nat, n: nat)
    requires k <= |buf| <= BUFSIZE - 1 && (k == 0 || buf[k - 1] == NEWLINE)
    requires n == Line(buf[k..]) && Visible(buf[k..])
    ensures k + n + 1 <= |buf| && buf[k + n] == NEWLINE
    ensures Output(re, buf[..k + n + 1]) == Output(re, buf[..k]) + if Matches(re, buf[k..][..n]) then buf[k..][..n + 1] else ""
    ensures Fitting(buf[k..] + more) == buf[k..][..n + 1] + Fitting(buf[k + n + 1..] + more)
  {
    hide Matches, Output, Line, Fitting;
    var r := buf[k..];
    var u := buf[..k + n + 1];
    OutputSplit(re, u, k);
    assert u[..k] == buf[..k] && u[k..] == r[..n + 1];
    OneLinePrints(re, r, n);
    OneLineFits(r, more, n);
    assert r[n + 1..] == buf[k + n + 1..];
  }

  lemma NotBlocked(s: string, n: nat)
    requires n == Line(s) < |s| && n < BUFSIZE - 1 && NUL !in s[..n]
    ensures !Blocked(s)
  {
    if BUFSIZE - 1 < |s| { assert s[0..BUFSIZE - 1][n] == NEWLINE; }
  }

  /** The inner loop of grep: prints the matching lines of buf up to the last newline that strchr
      finds, at k, and returns what follows; more is what has not been read yet. */
  method PrintLines(re: string, buf: string, ghost more: string) returns (out: string, rest: string, ghost k: nat)
    requires CString(re) && |buf| <= BUFSIZE - 1
    ensures k <= |buf| && rest == buf[k..] && (k == 0 || buf[k - 1] == NEWLINE) && !Visible(rest)
    ensures out == Output(re, buf[..k]) && Output(re, buf + more) == out + Output(re, rest + more)
    ensures Fitting(buf + more) == buf[..k] + Fitting(rest + more)
  {
    hide Output, Matches, Line, Fitting;
    rest, out := buf, "";
    k := 0;
    NoLine(re, buf[..0]);
    assert buf[..0] + Fitting(buf + more) == Fitting(buf + more);
    while true
      invariant k <= |buf| && rest == buf[k..] && (k == 0 || buf[k - 1] == NEWLINE)
      invariant out == Output(re, buf[..k])
      invariant Fitting(buf + more) == buf[..k] + Fitting(rest + more)
      decreases |rest|
    {
      var n := Line(rest);
      if n == |rest| || NUL in rest[..n] {
        break;
      }
      OneLine(re, buf, more, k, n);
      Joined(buf, k, n, Fitting(buf[k + n + 1..] + more));
      var m := Match(re, rest[..n]);
      if m {
        out := out + rest[..n + 1];
      }
      rest, k := rest[n + 1..], k + n + 1;
    }
    OutputSplit(re, buf + more, k);
    assert (buf + more)[..k] == buf[..k] && (buf + more)[k..] == rest + more;
  }

  lemma Joined(buf: string, k: nat, n: nat, x: string)
    requires k + n + 1 <= |buf|
    ensures buf[..k] + (buf[k..][..n + 1] + x) == buf[..k + n + 1] + x
  {
  }

  /** grep over an input that read() delivers in pieces of any sizes: it prints exactly the matching
      lines before the first line that does not fit its buffer or holds a NUL, and no other; there it
      silently stops. */
  method GrepFile(re: string, input: string, sizes: seq<nat>) returns (out: string, unread: string)
    requires CString(re)
    requires |sizes| >= |input| && forall i :: 0 <= i < |sizes| ==> sizes[i] > 0
    ensures out == Output(re, Fitting(input))
    ensures CString(input) ==> (unread != "" <==> LongLine(input))
    ensures CString(input) && unread == "" ==> out == Output(re, input)
    ensures Fitting(input) <= input && (out == Output(re, input) <==> Output(re, input[|Fitting(input)|..]) == "")
  {
    hide Output, LongFrom, Reached, LongLine, Fitting, Line;
    var buf := "";
    out, unread := "", input;
    var calls := 0;
    ghost var start := 0;
    StartsReached(re, input);
    while true
      invariant |buf| <= BUFSIZE - 1 && !Visible(buf)
      invariant calls + |unread| <= |sizes|
      invariant Reached(re, input, start, buf, unread, out)
      decreases |unread|
    {
      var room := BUFSIZE - |buf| - 1;
      if room == 0 || unread == "" {
        break;
      }
      var n := if sizes[calls] < room then sizes[calls] else room;
      n := if n < |unread| then n else |unread|;
      calls := calls + 1;
      StaysReached(re, input, start, buf, unread, n, out);
      buf, unread := buf + unread[..n], unread[n..];
      var printed, rest, k := PrintLines(re, buf, unread);
      Advance(re, input, start, buf, unread, k, out, printed);
      out := out + printed;
      start := start + k;
      buf := rest;
    }
    Finish(re, input, start, buf, unread, out);
  }

  /** buf and unread are what remains of the input from start on, a beginning of a line; the lines
      before fitted the buffer, and out is what they print. */
  ghost predicate Reached(re: string, input: string, start: nat, buf: string, unread: string, out: string) {
    && start <= |input| && buf + unread == input[start..]
    && (start == 0 || input[start - 1] == NEWLINE)
    && (forall i: nat {:trigger LongFrom(input, i)} :: i < start ==> !LongFrom(input, i))
    && out == Output(re, input[..start])
    && Fitting(input) == input[..start] + Fitting(input[start..])
  }

  lemma StartsReached(re: string, input: string)
    ensures Reached(re, input, 0, "", input, "") && !Visible("")
  {
    NoLine(re, input[..0]);
    assert input[0..] == input && "" + input == input;
  }

  lemma StaysReached(re: string, input: string, start: nat, buf: string, unread: string, n: nat, out: string)
    requires Reached(re, input, start, buf, unread, out) && n <= |unread|
    ensures Reached(re, input, start, buf + unread[..n], unread[n..], out)
  {
    hide Output, Fitting, LongFrom;
    assert (buf + unread[..n]) + unread[n..] == buf + unread;
  }

  /** The lines that have been dealt with fitted the buffer. */
  lemma Advance(re: string, input: string, start: nat, buf: string, unread: string, k: nat, out: string, printed: string)
    requires Reached(re, input, start, buf, unread, out) && |buf| <= BUFSIZE - 1 && k <= |buf|
    requires (k == 0 || buf[k - 1] == NEWLINE) && printed == Output(re, buf[..k])
    requires Fitting(buf + unread) == buf[..k] + Fitting(buf[k..] + unread)
    ensures Reached(re, input, start + k, buf[k..], unread, out + printed)
  {
    hide Output, Fitting;
    assert buf[k..] + unread == input[start + k..];
    assert input[start..][..k] == buf[..k];
    assert input[..start + k] == input[..start] + buf[..k];
    assert input[..start + k][..start] == input[..start] && input[..start + k][start..] == buf[..k];
    OutputSplit(re, input[..start + k], start);
  }

  lemma Finish(re: string, input: string, start: nat, buf: string, unread: string, out: string)
    requires Reached(re, input, start, buf, unread, out) && |buf| <= BUFSIZE - 1 && !Visible(buf)
    requires unread == "" || |buf| == BUFSIZE - 1
    ensures out == Output(re, Fitting(input))
    ensures CString(input) ==> (unread != "" <==> LongLine(input))
    ensures CString(input) && unread == "" ==> out == Output(re, input)
    ensures Fitting(input) <= input && (out == Output(re, input) <==> Output(re, input[|Fitting(input)|..]) == "")
  {
    hide Output, Fitting, LongFrom, Line;
    RestPrintsNothing(re, buf, unread);
    var f := Fitting(input);
    assert f[..start] == input[..start] && f[start..] == Fitting(buf + unread);
    OutputSplit(re, f, start);
    PrintsAllExactly(re, input);
    if CString(input) {
      LongExactly(re, input, start, buf, unread, out);
      if unread == "" { AllFits(input); }
    }
  }

  /** What is left in the buffer holds no line that grep will print. */
  lemma RestPrintsNothing(re: string, buf: string, unread: string)
    requires |buf| <= BUFSIZE - 1 && !Visible(buf) && (unread == "" || |buf| == BUFSIZE - 1)
    ensures Output(re, Fitting(buf + unread)) == ""
  {
    hide Output, Line;
    var s := buf + unread;
    NoLine(re, "");
    LineOfLonger(buf, unread);
    if Line(buf) < |buf| {
      assert buf[..Line(buf)] == s[..Line(buf)];
    } else if unread == "" {
      assert s == buf;
      NoLine(re, s);
    } else {
      assert s[0..BUFSIZE - 1] == buf[..|buf|];
    }
  }

  lemma LongExactly(re: string, input: string, start: nat, buf: string, unread: string, out: string)
    requires Reached(re, input, start, buf, unread, out) && |buf| <= BUFSIZE - 1 && !Visible(buf) && CString(input)
    requires unread == "" || |buf| == BUFSIZE - 1
    ensures unread != "" <==> LongLine(input)
  {
    hide Output, Fitting;
    assert CString(buf) by {
      forall c | c in buf
        ensures c in input
      {
        assert c in input[start..];
      }
    }
    assert NEWLINE !in buf;
    if unread == "" {
      assert forall i: nat :: !LongFrom(input, i);
    } else {
      assert input[start..][..BUFSIZE - 1] == input[start..start + BUFSIZE - 1];
      assert (buf + unread)[..BUFSIZE - 1] == buf;
      assert LongFrom(input, start);
    }
  }
}
