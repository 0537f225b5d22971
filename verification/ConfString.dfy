/** String values in a .config file (scripts/kconfig/confdata.c): conf_write escapes them, conf_read_simple and
    conf_set_sym_val read them back, removing the backslashes in place in the line buffer. */
module ConfString {
  import opened Wrappers

  const LINE_SIZE := 1024  // char line[1024]

  predicate Special(c: char) { c == '"' || c == '\\' }

  predicate NoSpecial(s: string) { forall k :: 0 <= k < |s| ==> !Special(s[k]) }

  predicate NoNul(s: string) { '\0' !in s }

  // ----- what is written and what is read -----

  /** A backslash in front of every quote and backslash. */
  function Escape(s: string): string {
    if s == "" then "" else (if Special(s[0]) then ['\\', s[0]] else [s[0]]) + Escape(s[1..])
  }

  /** The text up to the first quote without a backslash in front, with the backslashes removed. */
  function Unescape(s: string): Option<string> {
    if s == "" then None
    else if s[0] == '"' then Some("")
    else if s[0] != '\\' then Prepend([s[0]], Unescape(s[1..]))
    else if |s| == 1 then None
    else Prepend([s[1]], Unescape(s[2..]))
  }

  function Prepend(front: string, o: Option<string>): Option<string> {
    match o
    case None => None
    case Some(v) => Some(front + v)
  }

  lemma PrependTwice(a: string, b: string, o: Option<string>)
    ensures Prepend(a, Prepend(b, o)) == Prepend(a + b, o)
  {
    if o.Some? { assert a + (b + o.value) == (a + b) + o.value; }
  }

  lemma PrependNothing(o: Option<string>)
    ensures Prepend("", o) == o
  {
    if o.Some? { assert "" + o.value == o.value; }
  }

  lemma UnescapePlain(c: char, t: string)
    requires !Special(c)
    ensures Unescape([c] + t) == Prepend([c], Unescape(t))
  {
    assert ([c] + t)[1..] == t;
  }

  lemma UnescapeSpecial(c: char, t: string)
    ensures Unescape(['\\', c] + t) == Prepend([c], Unescape(t))
  {
    assert (['\\', c] + t)[2..] == t;
  }

  lemma EscapeFront(s: string, tail: string)
    ensures s == "" ==> Escape(s) + tail == tail
    ensures s != "" ==> Escape(s) + tail == (if Special(s[0]) then ['\\', s[0]] else [s[0]]) + (Escape(s[1..]) + tail)
    ensures s != "" ==> [s[0]] + s[1..] == s
  {
  }

  /** Reading undoes writing, whatever stands behind the closing quote. */
  lemma {:induction false} UnescapeEscape(s: string, rest: string)
    ensures Unescape(Escape(s) + (['"'] + rest)) == Some(s)
  {
    var tail := ['"'] + rest;
    assert Unescape(tail) == Some("");
    EscapeFront(s, tail);
    hide Unescape, Escape;
    if s != "" {
      var t := Escape(s[1..]) + tail;
      UnescapeEscape(s[1..], rest);
      UnescapeSpecial(s[0], t);
      if !Special(s[0]) { UnescapePlain(s[0], t); }
    }
  }

  /** No beginning of an escaped string holds a closing quote: a line that is cut off is never read as a value. */
  lemma {:induction false} CutOffIsInvalid(s: string, k: nat)
    requires k <= |Escape(s)|
    ensures Unescape(Escape(s)[..k]) == None
  {
    var t := Escape(s)[..k];
    if k > 0 {
      if Special(s[0]) {
        if k >= 2 {
          assert t[2..] == Escape(s[1..])[..k - 2];
          CutOffIsInvalid(s[1..], k - 2);
        }
      } else {
        assert t[1..] == Escape(s[1..])[..k - 1];
        CutOffIsInvalid(s[1..], k - 1);
      }
    }
  }

  lemma {:induction false} PlainFront(s: string, k: nat)
    requires k <= |s| && NoSpecial(s[..k])
    ensures Unescape(s) == Prepend(s[..k], Unescape(s[k..]))
  {
    if k == 0 {
      assert s[0..] == s;
      PrependNothing(Unescape(s));
    } else {
      assert s[0] == s[..k][0] && s[1..][..k - 1] == s[..k][1..];
      PlainFront(s[1..], k - 1);
      assert s[1..][k - 1..] == s[k..] && [s[0]] + s[1..][..k - 1] == s[..k];
      PrependTwice([s[0]], s[1..][..k - 1], Unescape(s[k..]));
    }
  }

  // ----- strings in a buffer -----

  /** The NUL-terminated string s starts at index p. */
  ghost predicate CString(buf: string, p: nat, s: string) {
    && p + |s| < |buf| && NoNul(s)
    && buf[p..p + |s|] == s && buf[p + |s|] == '\0'
  }

  lemma CStringTail(buf: string, p: nat, s: string, k: nat)
    requires CString(buf, p, s) && k <= |s|
    ensures CString(buf, p + k, s[k..])
  {
    assert buf[p + k..p + |s|] == buf[p..p + |s|][k..];
  }

  lemma CStringAt(buf: string, p: nat, s: string, k: nat)
    requires CString(buf, p, s) && k <= |s|
    ensures buf[p + k] == if k == |s| then '\0' else s[k]
  {
    if k < |s| { assert buf[p..p + |s|][k] == buf[p + k]; }
  }

  method StrLen(buf: array<char>, p: nat, ghost s: string) returns (n: nat)
    requires CString(buf[..], p, s)
    ensures n == |s| && p + n < buf.Length
  {
    n := 0;
    CStringAt(buf[..], p, s, 0);
    while buf[p + n] != '\0'
      invariant n <= |s| && p + |s| < buf.Length
      invariant buf[p + n] == if n == |s| then '\0' else s[n]
      decreases |s| - n
    {
      n := n + 1;
      CStringAt(buf[..], p, s, n);
    }
  }

  /** Place of the first quote or backslash, or -1 if there is none. */
  method StrPbrk(buf: array<char>, p: nat, ghost s: string) returns (q: int)
    requires CString(buf[..], p, s)
    ensures q == -1 ==> NoSpecial(s)
    ensures q != -1 ==> p <= q < p + |s| && NoSpecial(s[..q - p]) && Special(s[q - p]) && buf[q] == s[q - p]
  {
    q := p;
    CStringAt(buf[..], p, s, 0);
    while buf[q] != '\0'
      invariant p <= q <= p + |s| < buf.Length
      invariant buf[q] == if q == p + |s| then '\0' else s[q - p]
      invariant NoSpecial(s[..q - p])
      decreases p + |s| - q
    {
      if buf[q] == '"' || buf[q] == '\\' { return; }
      q := q + 1;
      CStringAt(buf[..], p, s, q - p);
    }
    assert s[..q - p] == s;
    q := -1;
  }

  /** The n characters behind q moved down by one. */
  ghost predicate MovedDown(before: string, after: string, q: nat, n: nat)
    requires q + n < |before|
  {
    && |after| == |before|
    && after[..q] == before[..q]
    && after[q..q + n] == before[q + 1..q + 1 + n]
    && after[q + n..] == before[q + n..]
  }

  /** Moves the n characters behind q down by one, lowest first. */
  method MoveDown(buf: array<char>, q: nat, n: nat)
    requires q + n < buf.Length
    modifies buf
    ensures MovedDown(old(buf[..]), buf[..], q, n)
  {
    var i := 0;
    while i < n
      invariant 0 <= i <= n
      invariant forall k :: 0 <= k < buf.Length ==> buf[k] == old(if q <= k < q + i then buf[k + 1] else buf[k])
    {
      buf[q + i] := buf[q + i + 1];
      i := i + 1;
    }
  }

  // ----- reading a value in place -----

  /** The value read so far stands from p to q, and the text still to be read from q on. */
  ghost predicate Reading(buf: string, p: nat, q: nat, s: string, done: string, rest: string) {
    && p + |done| == q < |buf| && buf[p..q] == done
    && CString(buf, q, rest)
    && Unescape(s) == Prepend(done, Unescape(rest))
    && (rest != "" ==> NoNul(done))
  }

  lemma SkipPlain(buf: string, p: nat, q: nat, s: string, done: string, rest: string, k: nat)
    requires Reading(buf, p, q, s, done, rest) && k < |rest| && NoSpecial(rest[..k])
    ensures Reading(buf, p, q + k, s, done + rest[..k], rest[k..])
  {
    PlainFront(rest, k);
    PrependTwice(done, rest[..k], Unescape(rest[k..]));
    CStringTail(buf, q, rest, k);
    assert buf[p..q + k] == buf[p..q] + buf[q..q + |rest|][..k];
    hide Unescape, Prepend;
  }

  lemma AtQuote(buf: string, p: nat, q: nat, s: string, done: string, rest: string)
    requires Reading(buf, p, q, s, done, rest) && rest != "" && rest[0] == '"'
    ensures CString(buf[q := '\0'], p, done) && Unescape(s) == Some(done)
  {
    assert done + "" == done;
    var b := buf[q := '\0'];
    assert b[p..q] == buf[p..q];
  }

  lemma NothingLeft(s: string, done: string, rest: string)
    requires NoSpecial(rest) && Unescape(s) == Prepend(done, Unescape(rest))
    ensures Unescape(s) == None
  {
    assert rest[..|rest|] == rest && rest[|rest|..] == "";
    PlainFront(rest, |rest|);
  }

  lemma SubSequence(s: string, a: nat, b: nat, c: nat, d: nat)
    requires a <= b <= |s| && c <= d <= b - a
    ensures s[a..b][c..d] == s[a + c..a + d]
  {
    var t, u := s[a..b][c..d], s[a + c..a + d];
    forall k | 0 <= k < |t|
      ensures t[k] == u[k]
    {
      assert t[k] == s[a..b][c + k] == s[a + (c + k)];
      assert u[k] == s[(a + c) + k];
    }
  }

  lemma AfterMove(buf: string, next: string, p: nat, q: nat, rest: string)
    requires p <= q && CString(buf, q, rest) && rest != "" && MovedDown(buf, next, q, |rest|)
    ensures next[p..q + 1] == buf[p..q] + [next[q]] && (|rest| > 1 ==> next[q] == rest[1])
    ensures CString(next, q + 1, if |rest| == 1 then "" else rest[2..])
  {
    var n := |rest|;
    var window := next[q..q + n];
    CStringAt(buf, q, rest, 1);
    assert next[p..q] == next[..q][p..] == buf[..q][p..] == buf[p..q];
    assert next[p..q + 1] == next[p..q] + [next[q]];
    assert window[0] == next[q] && window[n - 1] == next[q + n - 1];
    assert next[q + n] == next[q + n..][0] == buf[q + n..][0] == buf[q + n];
    if n > 1 {
      SubSequence(next, q, q + n, 1, n - 1);
      SubSequence(buf, q + 1, q + 1 + n, 1, n - 1);
      SubSequence(buf, q, q + n, 2, n);
      assert rest[2..n] == rest[2..];
    }
  }

  lemma AtBackslash(buf: string, p: nat, q: nat, s: string, done: string, rest: string, next: string)
    requires Reading(buf, p, q, s, done, rest) && rest != "" && rest[0] == '\\' && q + |rest| < |buf|
    requires MovedDown(buf, next, q, |rest|)
    ensures Reading(next, p, q + 1, s, done + [next[q]], if |rest| == 1 then "" else rest[2..])
  {
    var after := if |rest| == 1 then "" else rest[2..];
    assert Unescape(rest) == if |rest| == 1 then None else Prepend([rest[1]], Unescape(after));
    assert Unescape("") == None;
    PrependTwice(done, [next[q]], Unescape(after));
    hide MovedDown, CString, Unescape;
    AfterMove(buf, next, p, q, rest);
  }

  /** The loop of conf_set_sym_val: removes the backslashes and cuts the text at the closing quote. Nothing in front
      of p is touched, and the scan never leaves the text. */
  method Unquote(line: array<char>, p: nat, ghost s: string) returns (ok: bool)
    requires CString(line[..], p, s)
    modifies line
    ensures ok <==> Unescape(s).Some?
    ensures ok ==> CString(line[..], p, Unescape(s).value)
    ensures line[..p] == old(line[..p])
  {
    hide Unescape, Prepend, CString, NoNul, NoSpecial;
    var q: nat := p;
    ghost var done, rest := "", s;
    PrependNothing(Unescape(s));
    StartReading(line[..], p, s);
    while true
      invariant Reading(line[..], p, q, s, done, rest) && p <= q < line.Length
      invariant line[..p] == old(line[..p])
      decreases |rest|
    {
      var r := StrPbrk(line, q, rest);
      if r == -1 {
        NothingLeft(s, done, rest);
        return false;
      }
      SkipPlain(line[..], p, q, s, done, rest, r - q);
      done, rest := done + rest[..r - q], rest[r - q..];
      q := r;
      ghost var before := line[..];
      if line[q] == '"' {
        AtQuote(before, p, q, s, done, rest);
        line[q] := '\0';
        assert line[..] == before[q := '\0'];
        return true;
      }
      var n := StrLen(line, q, rest);
      MoveDown(line, q, n);
      AtBackslash(before, p, q, s, done, rest, line[..]);
      assert line[..p] == line[..q][..p] == before[..q][..p];
      done, rest := done + [line[q]], if |rest| == 1 then "" else rest[2..];
      q := q + 1;
    }
  }

  lemma StartReading(buf: string, p: nat, s: string)
    requires CString(buf, p, s)
    ensures Reading(buf, p, p, s, "", s)
  {
    PrependNothing(Unescape(s));
  }

  // ----- writing -----

  lemma {:induction false} EscapePlain(s: string, k: nat)
    requires k <= |s| && NoSpecial(s[..k])
    ensures Escape(s) == s[..k] + Escape(s[k..])
  {
    if k == 0 {
      assert s[0..] == s;
    } else {
      assert s[0] == s[..k][0] && s[1..][..k - 1] == s[..k][1..];
      EscapePlain(s[1..], k - 1);
      assert s[1..][k - 1..] == s[k..] && [s[0]] + s[1..][..k - 1] == s[..k];
    }
  }

  /** Length of the part in front of the first quote or backslash. */
  method StrCspn(s: string) returns (l: nat)
    ensures l <= |s| && NoSpecial(s[..l]) && (l < |s| ==> Special(s[l]))
  {
    l := 0;
    while l < |s| && !Special(s[l])
      invariant l <= |s| && NoSpecial(s[..l])
    {
      l := l + 1;
    }
  }

  function Assignment(name: string, s: string): string { "CONFIG_" + name + ("=\"" + Escape(s) + "\"") }

  lemma Regroup(a: string, b: string, c: string)
    ensures a + (b + c) == (a + b) + c
  {
  }

  lemma WritePlain(out: string, s: string, l: nat)
    requires l <= |s| && NoSpecial(s[..l])
    ensures out + Escape(s) == (out + s[..l]) + Escape(s[l..])
  {
    EscapePlain(s, l);
    hide Escape;
    Regroup(out, s[..l], Escape(s[l..]));
  }

  lemma WriteSpecial(out: string, s: string)
    requires s != "" && Special(s[0])
    ensures out + Escape(s) == (out + ['\\', s[0]]) + Escape(s[1..])
  {
    Regroup(out, ['\\', s[0]], Escape(s[1..]));
  }

  lemma NothingEscaped(out: string)
    ensures out + Escape("") == out
  {
  }

  lemma Join(a: string, b: string, c: string)
    ensures a + b + "=\"" + c + "\"\n" == a + b + ("=\"" + c + "\"") + "\n"
  {
  }

  /** The S_STRING case of conf_write. */
  method WriteString(name: string, str: string) returns (out: string)
    ensures out == Assignment(name, str) + "\n"
  {
    hide Escape, NoSpecial, Special;
    var rest := str;
    out := "CONFIG_" + name + "=\"";
    ghost var target := out + Escape(str);
    while true
      invariant out + Escape(rest) == target
      decreases |rest|
    {
      var l := StrCspn(rest);
      WritePlain(out, rest, l);
      out := out + rest[..l];
      rest := rest[l..];
      if rest == "" { break; }
      WriteSpecial(out, rest);
      out := out + ['\\', rest[0]];
      rest := rest[1..];
    }
    NothingEscaped(out);
    out := out + "\"\n";
    Join("CONFIG_", name, Escape(str));
  }
}
