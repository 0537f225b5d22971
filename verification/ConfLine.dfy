/** A whole assignment in a .config file (scripts/kconfig/confdata.c): fgets into a buffer of 1024 characters, the
    split at '=', and the string value, against the line conf_write produced. */
module ConfLine {
  import opened Wrappers
  import opened ConfString

  /** The first c in s, or the length of s. */
  function Index(c: char, s: string): (k: nat)
    ensures k <= |s| && c !in s[..k] && (k < |s| ==> s[k] == c)
  {
    if s == "" || s[0] == c then 0
    else
      var k := 1 + Index(c, s[1..]);
      assert s[..k] == [s[0]] + s[1..][..k - 1];
      k
  }

  lemma IndexAt(c: char, a: string, b: string)
    requires c !in a && (b == "" || b[0] == c)
    ensures Index(c, a + b) == |a|
  {
    assert forall i :: 0 <= i < |a| ==> (a + b)[i] == a[i];
    assert b != "" ==> (a + b)[|a|] == c;
  }

  /** What one call of fgets takes from the input: up to and including a newline, at most room characters. */
  function Chunk(input: string, room: nat): string {
    if input == "" || room == 0 then ""
    else if input[0] == '\n' then "\n"
    else [input[0]] + Chunk(input[1..], room - 1)
  }

  lemma {:induction false} ChunkOfLine(body: string, more: string, room: nat)
    requires '\n' !in body
    ensures Chunk(body + (['\n'] + more), room) == if |body| < room then body + "\n" else body[..room]
  {
    var input := body + (['\n'] + more);
    if room > 0 && body != "" {
      assert body[0] in body;
      assert input[0] == body[0] && input[1..] == body[1..] + (['\n'] + more);
      ChunkOfLine(body[1..], more, room - 1);
      assert [body[0]] + body[1..] == body;
    } else if room > 0 {
      assert input == ['\n'] + more;
    }
  }

  /** The types of symbols a line can set, without numbers. */
  datatype Kind = StringSymbol | BooleanSymbol | TristateSymbol

  /** How conf_read_simple understands a line that starts with 'C': a string, or one of the letters y, m, n, is set;
      or nothing is. */
  datatype Outcome =
    | Unexpected | NoValue | NotQuoted | Invalid | NotTristate
    | Value(name: string, value: string)
    | Letter(name: string, letter: char)

  const KEY := "CONFIG_"

  /** The newline and a carriage return in front of it are cut off. */
  function Chomp(v: string): string {
    var k := Index('\n', v);
    if k == |v| then v else if k > 0 && v[k - 1] == '\r' then v[..k - 1] else v[..k]
  }

  /** `kinds` gives the type of each symbol. */
  function ReadText(t: string, kinds: string -> Kind): Outcome {
    if |t| < 7 || t[..7] != KEY then Unexpected
    else
      var k := Index('=', t[7..]);
      if k == |t[7..]| then NoValue else ReadValue(t[7..][..k], Chomp(t[7..][k + 1..]), kinds)
  }

  function ReadValue(name: string, v: string, kinds: string -> Kind): Outcome {
    match kinds(name)
    case StringSymbol =>
      if v == "" || v[0] != '"' then NotQuoted
      else
        (match Unescape(v[1..])
         case None => Invalid
         case Some(s) => Value(name, s))
    case kind =>
      if v != "" && IsLetter(v[0], kind) then Letter(name, v[0]) else NotTristate
  }

  /** The outcome changes a symbol. */
  predicate Sets(o: Outcome) { o.Value? || o.Letter? }

  predicate IsLetter(c: char, kind: Kind) { c == 'y' || c == 'n' || (c == 'm' && kind.TristateSymbol?) }

  // ----- the round trip -----

  lemma {:induction false} EscapeAdds(c: char, s: string)
    requires c !in s && c != '\\'
    ensures c !in Escape(s)
  {
    if s != "" {
      assert c !in s[1..] && s[0] != c;
      EscapeAdds(c, s[1..]);
    }
  }

  /** What stands behind '=' in an assignment. */
  function Quoted(s: string): string { ['"'] + (Escape(s) + ['"']) }

  lemma AssignmentShape(name: string, s: string)
    ensures Assignment(name, s) == KEY + (name + (['='] + Quoted(s)))
  {
    hide Escape;
  }

  lemma ReadQuoted(name: string, s: string, kinds: string -> Kind)
    requires kinds(name) == StringSymbol
    ensures ReadValue(name, Quoted(s), kinds) == Value(name, s)
  {
    UnescapeEscape(s, "");
    hide Unescape, Escape;
    assert ['"'] + "" == ['"'];
    assert Quoted(s)[1..] == Escape(s) + ['"'];
  }

  lemma ReadCutOff(name: string, s: string, m: nat, kinds: string -> Kind)
    requires m < |Quoted(s)|
    ensures !Sets(ReadValue(name, Quoted(s)[..m], kinds))
  {
    hide Unescape, Escape;
    if m > 0 {
      CutOffIsInvalid(s, m - 1);
      assert Quoted(s)[..m][1..] == Escape(s)[..m - 1];
    }
  }

  lemma ChompLine(v: string)
    requires '\n' !in v && (v == "" || v[|v| - 1] != '\r')
    ensures Chomp(v) == v && Chomp(v + "\n") == v
  {
    IndexAt('\n', v, "");
    IndexAt('\n', v, "\n");
    assert v + "" == v;
  }

  lemma ReadAssigned(name: string, v: string, kinds: string -> Kind)
    requires '=' !in name
    ensures ReadText(KEY + (name + (['='] + v)), kinds) == ReadValue(name, Chomp(v), kinds)
  {
    var rest := name + (['='] + v);
    var t := KEY + rest;
    IndexAt('=', name, ['='] + v);
    hide Chomp, ReadValue, Index;
    assert t[..7] == KEY && t[7..] == rest;
    assert rest[|name| + 1..] == v;
  }

  lemma AssignmentIsValue(name: string, s: string, kinds: string -> Kind)
    requires '=' !in name && '\n' !in s
    ensures ReadText(Assignment(name, s), kinds) == ReadValue(name, Quoted(s), kinds)
    ensures ReadText(Assignment(name, s) + "\n", kinds) == ReadValue(name, Quoted(s), kinds)
    ensures ReadValue(name, Quoted(s), kinds).Value? ==> kinds(name) == StringSymbol
  {
    hide Escape, Unescape, ReadText, Chomp, Assignment;
    var v := Quoted(s);
    EscapeAdds('\n', s);
    AssignmentShape(name, s);
    ChompLine(v);
    ReadAssigned(name, v, kinds);
    ReadAssigned(name, v + "\n", kinds);
    assert KEY + (name + (['='] + v)) + "\n" == KEY + (name + (['='] + (v + "\n")));
  }

  /** The assignment, with or without its newline, reads as what was written. */
  lemma ReadWhole(name: string, s: string, kinds: string -> Kind)
    requires kinds(name) == StringSymbol && '=' !in name && '\n' !in s
    ensures ReadText(Assignment(name, s), kinds) == Value(name, s)
    ensures ReadText(Assignment(name, s) + "\n", kinds) == Value(name, s)
  {
    hide Escape, Unescape, ReadText, ReadValue, Assignment;
    AssignmentIsValue(name, s, kinds);
    ReadQuoted(name, s, kinds);
  }

  lemma ReadNoValue(n: string, kinds: string -> Kind)
    requires '=' !in n
    ensures ReadText(KEY + n, kinds) == NoValue
  {
    var t := KEY + n;
    assert t[..7] == KEY && t[7..] == n;
    IndexAt('=', n, "");
    assert n + "" == n;
  }

  lemma ReadPart(name: string, s: string, m: nat, kinds: string -> Kind)
    requires '=' !in name && '\n' !in s && 7 <= m < |Assignment(name, s)|
    ensures !Sets(ReadText(Assignment(name, s)[..m], kinds))
  {
    hide Escape, Unescape, ReadText, ReadValue, Chomp, Assignment;
    var v := Quoted(s);
    AssignmentShape(name, s);
    if m <= 7 + |name| {
      ReadNoValue(name[..m - 7], kinds);
      assert Assignment(name, s)[..m] == KEY + name[..m - 7];
    } else {
      var k := m - 8 - |name|;
      EscapeAdds('\n', s);
      assert Assignment(name, s)[..m] == KEY + (name + (['='] + v[..k]));
      ReadAssigned(name, v[..k], kinds);
      ChompPart(v[..k]);
      ReadCutOff(name, s, k, kinds);
    }
  }

  lemma ChompPart(v: string)
    requires '\n' !in v
    ensures Chomp(v) == v
  {
    IndexAt('\n', v, "");
    assert v + "" == v;
  }

  /** The law of the pair: for every string without a newline the reader gets back what the writer wrote exactly when
      the line, up to the closing quote, fits the buffer. */
  lemma RoundTrip(name: string, s: string, more: string, kinds: string -> Kind)
    requires kinds(name) == StringSymbol
    requires '=' !in name && '\n' !in name && '\n' !in s
    ensures ReadText(Chunk(Assignment(name, s) + (['\n'] + more), LINE_SIZE - 1), kinds) == Value(name, s)
        <==> |Assignment(name, s)| <= LINE_SIZE - 1
  {
    hide Assignment, Escape, Unescape, ReadText, Chunk;
    var a := Assignment(name, s);
    OneLine(name, s);
    ChunkOfLine(a, more, LINE_SIZE - 1);
    ReadWhole(name, s, kinds);
    if |a| > LINE_SIZE - 1 {
      ReadPart(name, s, LINE_SIZE - 1, kinds);
    } else {
      assert a[..|a|] == a;
    }
  }

  lemma OneLine(name: string, s: string)
    requires '\n' !in name && '\n' !in s
    ensures '\n' !in Assignment(name, s)
  {
    EscapeAdds('\n', s);
    hide Escape;
  }

  // ----- the rest of a line that does not fit -----

  /** What is left of the input after k calls of fgets. */
  function After(input: string, k: nat): string {
    if k == 0 then input
    else
      var rest := After(input, k - 1);
      ChunkShorter(rest, LINE_SIZE - 1);
      rest[|Chunk(rest, LINE_SIZE - 1)|..]
  }

  lemma {:induction false} ChunkShorter(input: string, room: nat)
    ensures |Chunk(input, room)| <= |input|
  {
    if input != "" && room > 0 && input[0] != '\n' { ChunkShorter(input[1..], room - 1); }
  }

  /** A line that does not fit is read in pieces of 1023 characters. */
  lemma {:induction false} AfterPieces(a: string, more: string, k: nat)
    requires '\n' !in a && (LINE_SIZE - 1) * k <= |a|
    ensures After(a + (['\n'] + more), k) == a[(LINE_SIZE - 1) * k..] + (['\n'] + more)
  {
    var tail := ['\n'] + more;
    if k == 0 {
      assert a[0..] == a;
    } else {
      var o := (LINE_SIZE - 1) * (k - 1);
      AfterPieces(a, more, k - 1);
      var piece := a[o..];
      assert forall c :: c in piece ==> c in a;
      ChunkOfLine(piece, more, LINE_SIZE - 1);
      assert |Chunk(piece + tail, LINE_SIZE - 1)| == LINE_SIZE - 1;
      assert piece[LINE_SIZE - 1..] == a[(LINE_SIZE - 1) * k..];
      assert (piece + tail)[LINE_SIZE - 1..] == piece[LINE_SIZE - 1..] + tail;
    }
  }

  /** Inside an escaped string every quote has a backslash in front. */
  lemma {:induction false} QuotePreceded(s: string, y: nat)
    requires y < |Escape(s)| && Escape(s)[y] == '"'
    ensures y > 0 && Escape(s)[y - 1] == '\\'
  {
    var first := if Special(s[0]) then ['\\', s[0]] else [s[0]];
    assert Escape(s) == first + Escape(s[1..]);
    if y >= |first| {
      QuotePreceded(s[1..], y - |first|);
    }
  }

  /** The only quotes behind the '=' of an assignment that could open a value are the first, and the last with
      nothing behind it. */
  lemma NoSecondOpening(s: string, y: nat)
    requires 0 < y < |Quoted(s)| && Quoted(s)[y] == '"' && Quoted(s)[y - 1] == '='
    ensures y == |Quoted(s)| - 1
  {
    if y < |Quoted(s)| - 1 {
      QuotePreceded(s, y - 1);
    }
  }

  /** A piece that begins behind the '=' never sets a string. */
  lemma LaterValue(s: string, k: nat, more: string, kinds: string -> Kind)
    requires '\n' !in s && k <= |Quoted(s)|
    ensures !ReadText(Chunk(Quoted(s)[k..] + (['\n'] + more), LINE_SIZE - 1), kinds).Value?
  {
    hide Chunk, Escape, Index, Chomp;
    var w := Quoted(s)[k..];
    var t := Chunk(w + (['\n'] + more), LINE_SIZE - 1);
    EscapeAdds('\n', s);
    ChunkOfLine(w, more, LINE_SIZE - 1);
    if ReadText(t, kinds).Value? {
      var x := 8 + Index('=', t[7..]);
      var v := t[x..];
      assert v == t[7..][x - 7..] && t[x - 1] == '=';
      ChompStart(v);
      assert t[x] == '"';
      assert x < |w| && w[x] == Quoted(s)[k + x] && w[x - 1] == Quoted(s)[k + x - 1];
      NoSecondOpening(s, k + x);
      assert v == "\"" || v == "\"\n";
      LoneQuote(t[7..][..x - 8], kinds);
    }
  }

  lemma LoneQuote(name: string, kinds: string -> Kind)
    ensures Chomp("\"") == "\"" && Chomp("\"\n") == "\""
    ensures !ReadValue(name, "\"", kinds).Value?
  {
    ChompLine("\"");
    assert "\"" + "\n" == "\"\n";
    assert "\""[1..] == "" && Unescape("") == None;
  }

  lemma ChompStart(v: string)
    ensures Chomp(v) != "" ==> v != "" && Chomp(v)[0] == v[0]
  {
  }

  /** The rest of an assignment that is cut inside the name is an assignment to the rest of the name, if that looks
      like one. */
  predicate Resumes(name: string, s: string, o: nat) {
    7 <= o <= |name| && name[o - 7..o] == KEY && |Assignment(name[o..], s)| <= LINE_SIZE - 1
  }

  lemma CutInName(name: string, s: string, o: nat)
    requires 7 <= o <= 7 + |name|
    ensures Assignment(name, s)[o..] == name[o - 7..] + (['='] + Quoted(s))
    ensures o <= |name| && name[o - 7..o] == KEY ==> Assignment(name, s)[o..] == Assignment(name[o..], s)
    ensures KEY <= name[o - 7..] <==> o <= |name| && name[o - 7..o] == KEY
  {
    hide Escape, Quoted;
    AssignmentShape(name, s);
    if o <= |name| {
      AssignmentShape(name[o..], s);
      assert name[o - 7..] == name[o - 7..o] + name[o..];
    }
  }

  lemma CutBehindName(name: string, s: string, o: nat)
    requires 8 + |name| <= o <= |Assignment(name, s)|
    ensures o - 8 - |name| <= |Quoted(s)|
    ensures Assignment(name, s)[o..] == Quoted(s)[o - 8 - |name|..]
  {
    hide Escape, Quoted;
    AssignmentShape(name, s);
  }

  /** A text that begins with part of a name but not with CONFIG_ is no assignment. */
  lemma NotAnAssignment(t: string, n: string, rest: string, kinds: string -> Kind)
    requires '=' !in n && !(KEY <= n) && t <= n + (['='] + rest)
    ensures ReadText(t, kinds) == Unexpected
  {
    var w := n + (['='] + rest);
    assert |n| < 7 && |t| >= 7 ==> t[..7][|n|] == w[|n|] == '=' && KEY[|n|] != '=';
    assert |n| >= 7 && |t| >= 7 ==> t[..7] == w[..7] == n[..7];
  }

  /** Whatever later piece of an assignment is read, it sets a string only if the cut fell into the name and left an
      assignment behind that fits; and then it sets that to the value that was written. */
  lemma LaterPart(name: string, s: string, more: string, o: nat, kinds: string -> Kind)
    requires '=' !in name && '\n' !in name && '\n' !in s
    requires 7 <= o <= |Assignment(name, s)|
    ensures var out := ReadText(Chunk(Assignment(name, s)[o..] + (['\n'] + more), LINE_SIZE - 1), kinds);
            && (out.Value? <==> Resumes(name, s, o) && kinds(name[o..]) == StringSymbol)
            && (out.Value? ==> out == Value(name[o..], s))
  {
    hide Escape, Unescape, ReadText, ReadValue, Chunk, Assignment, Index;
    var w := Assignment(name, s)[o..];
    OneLine(name, s);
    ChunkOfLine(w, more, LINE_SIZE - 1);
    var t := Chunk(w + (['\n'] + more), LINE_SIZE - 1);
    if o >= 8 + |name| {
      CutBehindName(name, s, o);
      LaterValue(s, o - 8 - |name|, more, kinds);
    } else {
      CutInName(name, s, o);
      if o <= |name| && name[o - 7..o] == KEY {
        WholePart(name[o..], s, more, kinds);
      } else {
        var n := name[o - 7..];
        assert w + "\n" == n + (['='] + (Quoted(s) + "\n"));
        NotAnAssignment(t, n, Quoted(s) + "\n", kinds);
      }
    }
  }

  lemma WholePart(name: string, s: string, more: string, kinds: string -> Kind)
    requires '=' !in name && '\n' !in name && '\n' !in s
    ensures var out := ReadText(Chunk(Assignment(name, s) + (['\n'] + more), LINE_SIZE - 1), kinds);
            && (out.Value? <==> |Assignment(name, s)| <= LINE_SIZE - 1 && kinds(name) == StringSymbol)
            && (out.Value? ==> out == Value(name, s))
  {
    hide Assignment, Escape, Unescape, ReadText, Chunk;
    var a := Assignment(name, s);
    OneLine(name, s);
    ChunkOfLine(a, more, LINE_SIZE - 1);
    if kinds(name) == StringSymbol { RoundTrip(name, s, more, kinds); }
    if |a| > LINE_SIZE - 1 {
      ReadPart(name, s, LINE_SIZE - 1, kinds);
    } else {
      AssignmentIsValue(name, s, kinds);
      assert a[..|a|] == a;
    }
  }

  // ----- letters -----

  /** A line that gives symbol n the letter c, up to that letter. */
  function LetterText(n: string, c: char): string { KEY + (n + ['=', c]) }

  predicate TakesLetter(n: string, c: char, kinds: string -> Kind) {
    '=' !in n && !kinds(n).StringSymbol? && IsLetter(c, kinds(n))
  }

  /** Which texts set a boolean or tristate symbol. */
  lemma ReadsLetter(t: string, n: string, c: char, kinds: string -> Kind)
    ensures ReadText(t, kinds) == Letter(n, c) <==> LetterText(n, c) <= t && TakesLetter(n, c, kinds)
  {
    if LetterText(n, c) <= t && TakesLetter(n, c, kinds) {
      LetterRead(t, n, c, kinds);
    } else if ReadText(t, kinds) == Letter(n, c) {
      LetterThere(t, n, c, kinds);
    }
  }

  lemma LetterRead(t: string, n: string, c: char, kinds: string -> Kind)
    requires LetterText(n, c) <= t && TakesLetter(n, c, kinds)
    ensures ReadText(t, kinds) == Letter(n, c)
  {
    hide ReadText, Index, Chomp;
    var v := t[|n| + 8..];
    assert LetterText(n, c)[|n| + 8] == c;
    assert LetterText(n, c)[..|n| + 8] == KEY + (n + ['=']);
    assert t == t[..|n| + 8] + v && t[..|n| + 8] == LetterText(n, c)[..|n| + 8];
    assert t == KEY + (n + (['='] + v));
    ReadAssigned(n, v, kinds);
    ChompFirst(v);
  }

  lemma ChompFirst(v: string)
    ensures v != "" && v[0] != '\n' && v[0] != '\r' ==> Chomp(v) != "" && Chomp(v)[0] == v[0]
    ensures Chomp(v) <= v
  {
    if v != "" { assert v[0] == '\n' || Index('\n', v) > 0; }
  }

  lemma LetterThere(t: string, n: string, c: char, kinds: string -> Kind)
    requires ReadText(t, kinds) == Letter(n, c)
    ensures LetterText(n, c) <= t && TakesLetter(n, c, kinds)
  {
    hide Index, Chomp, Unescape;
    assert |t| >= 7 && t[..7] == KEY;
    var rest := t[7..];
    var k := Index('=', rest);
    assert k < |rest|;
    var v := rest[k + 1..];
    assert n == rest[..k] && ReadValue(n, Chomp(v), kinds) == Letter(n, c);
    ChompFirst(v);
    hide ReadText, ReadValue;
    LetterJoined(t, rest, k, n, v, c);
  }

  lemma LetterJoined(t: string, rest: string, k: nat, n: string, v: string, c: char)
    requires |t| >= 7 && t[..7] == KEY && rest == t[7..] && k < |rest| && n == rest[..k] && rest[k] == '='
    requires v == rest[k + 1..] && v != "" && v[0] == c
    ensures LetterText(n, c) <= t
  {
    assert v[0] == rest[k + 1];
    assert rest[..k + 2] == n + ['=', c];
    assert t[..k + 9] == t[..7] + rest[..k + 2];
  }

  /** When a later piece sets a symbol of another type than string: it begins with CONFIG_, a name, and one of the
      letters of that symbol, all within the buffer. */
  lemma LaterLetter(name: string, s: string, more: string, o: nat, n: string, c: char, kinds: string -> Kind)
    requires '\n' !in name && '\n' !in s && o <= |Assignment(name, s)|
    ensures ReadText(Chunk(Assignment(name, s)[o..] + (['\n'] + more), LINE_SIZE - 1), kinds) == Letter(n, c)
       <==> && LetterText(n, c) <= Assignment(name, s)[o..] && |n| + 9 <= LINE_SIZE - 1
            && TakesLetter(n, c, kinds)
  {
    hide ReadText, Chunk, Assignment, LetterText;
    var w := Assignment(name, s)[o..];
    OneLine(name, s);
    assert forall x :: x in w ==> x in Assignment(name, s);
    ChunkOfLine(w, more, LINE_SIZE - 1);
    var t := Chunk(w + (['\n'] + more), LINE_SIZE - 1);
    ReadsLetter(t, n, c, kinds);
    if TakesLetter(n, c, kinds) { LetterFits(w, n, c); }
  }

  lemma LetterFits(w: string, n: string, c: char)
    requires c != '\n'
    ensures |LetterText(n, c)| == |n| + 9
    ensures LetterText(n, c) <= w + "\n" <==> LetterText(n, c) <= w
    ensures |w| >= LINE_SIZE - 1 ==>
              (LetterText(n, c) <= w[..LINE_SIZE - 1] <==> LetterText(n, c) <= w && |n| + 9 <= LINE_SIZE - 1)
  {
    var u := LetterText(n, c);
    assert u[|u| - 1] == c;
    assert (w + "\n")[|w|] == '\n';
    assert |u| <= |w| ==> (w + "\n")[..|u|] == w[..|u|];
    if |w| >= LINE_SIZE - 1 && u <= w && |u| <= LINE_SIZE - 1 { assert w[..LINE_SIZE - 1][..|u|] == w[..|u|]; }
    if |w| >= LINE_SIZE - 1 && u <= w[..LINE_SIZE - 1] { assert w[..LINE_SIZE - 1][..|u|] == w[..|u|]; }
  }

  // ----- where nothing can be set -----

  predicate Occurs(u: string, s: string) {
    exists i :: 0 <= i <= |s| - |u| && s[i..][..|u|] == u
  }

  lemma {:induction false} PlainPrefix(u: string, s: string)
    requires NoSpecial(u) && u <= Escape(s)
    ensures u <= s
  {
    if u != "" {
      assert !Special(u[0]) && u[0] == Escape(s)[0];
      assert Escape(s) == [s[0]] + Escape(s[1..]);
      assert u[1..] <= Escape(s)[1..] == Escape(s[1..]);
      assert forall k :: 0 <= k < |u[1..]| ==> u[1..][k] == u[k + 1];
      PlainPrefix(u[1..], s[1..]);
      assert u == [u[0]] + u[1..] && s == [s[0]] + s[1..];
    }
  }

  lemma EscapedFirst(s: string, i: nat)
    requires s != "" && i > 0
    ensures i == 1 && Special(s[0]) ==> |Escape(s)| > 1 && Escape(s)[1] == s[0]
    ensures Escape(s) == (if Special(s[0]) then ['\\', s[0]] else [s[0]]) + Escape(s[1..])
  {
  }

  lemma {:induction false} OccursEscaped(u: string, s: string, i: nat)
    requires u != "" && NoSpecial(u) && i <= |Escape(s)| - |u| && Escape(s)[i..][..|u|] == u
    ensures Occurs(u, s)
  {
    if i == 0 {
      assert Escape(s)[0..] == Escape(s);
      PlainPrefix(u, s);
      assert s[0..][..|u|] == u;
    } else {
      var first := if Special(s[0]) then ['\\', s[0]] else [s[0]];
      EscapedFirst(s, i);
      assert Escape(s)[i] == Escape(s)[i..][0] == u[0];
      assert Escape(s)[i..] == Escape(s[1..])[i - |first|..];
      OccursEscaped(u, s[1..], i - |first|);
      var j :| 0 <= j <= |s[1..]| - |u| && s[1..][j..][..|u|] == u;
      assert s[j + 1..] == s[1..][j..];
    }
  }

  lemma NoKeyInQuoted(s: string, i: nat)
    requires i <= |Quoted(s)| && KEY <= Quoted(s)[i..]
    ensures Occurs(KEY, s)
  {
    hide Escape;
    var q, e := Quoted(s), Escape(s);
    assert NoSpecial(KEY);
    assert q[i] == q[i..][0] == KEY[0] && q[0] == '"';
    assert q[i..] == e[i - 1..] + ['"'];
    PrefixOf(KEY, e[i - 1..], ['"']);
    OccursEscaped(KEY, s, i - 1);
  }

  /** A word cannot reach a character that is not in it. */
  lemma PrefixOf(u: string, a: string, b: string)
    requires u <= a + b && b != "" && b[0] !in u
    ensures |u| <= |a| && u <= a && a[..|u|] == u
  {
    assert (a + b)[|a|] == b[0];
    assert |u| <= |a| ==> (a + b)[..|u|] == a[..|u|];
  }

  /** When CONFIG_ occurs neither in the name nor in the string, no later piece of the line sets anything. */
  lemma LaterSetsNothing(name: string, s: string, more: string, k: nat, kinds: string -> Kind)
    requires '\n' !in name && '\n' !in s && '=' !in name
    requires k > 0 && (LINE_SIZE - 1) * k <= |Assignment(name, s)|
    requires !Occurs(KEY, name) && !Occurs(KEY, s)
    ensures !Sets(ReadText(Chunk(After(Assignment(name, s) + (['\n'] + more), k), LINE_SIZE - 1), kinds))
  {
    hide Assignment, Chunk, After, Occurs;
    var o := (LINE_SIZE - 1) * k;
    OneLine(name, s);
    AfterPieces(Assignment(name, s), more, k);
    var w := Assignment(name, s)[o..];
    assert forall x :: x in w ==> x in Assignment(name, s);
    ChunkOfLine(w, more, LINE_SIZE - 1);
    if KEY <= Chunk(w + (['\n'] + more), LINE_SIZE - 1) {
      KeyInPiece(w, Chunk(w + (['\n'] + more), LINE_SIZE - 1));
      NoKeyLater(name, s, o);
    }
  }

  lemma KeyInPiece(w: string, t: string)
    requires KEY <= t && t == (if |w| < LINE_SIZE - 1 then w + "\n" else w[..LINE_SIZE - 1])
    ensures KEY <= w
  {
    if |w| < LINE_SIZE - 1 {
      PrefixOf(KEY, w, "\n");
    } else {
      assert t[..7] == w[..7];
    }
  }

  lemma NoKeyLater(name: string, s: string, o: nat)
    requires '=' !in name && 7 <= o <= |Assignment(name, s)| && KEY <= Assignment(name, s)[o..]
    ensures Occurs(KEY, name) || Occurs(KEY, s)
  {
    hide Assignment, Escape, Quoted;
    if o >= 8 + |name| {
      CutBehindName(name, s, o);
      NoKeyInQuoted(s, o - 8 - |name|);
    } else {
      CutInName(name, s, o);
      KeyInName(name, o, ['='] + Quoted(s));
    }
  }

  lemma KeyInName(name: string, o: nat, rest: string)
    requires 7 <= o <= 7 + |name| && rest != "" && rest[0] == '=' && KEY <= name[o - 7..] + rest
    ensures Occurs(KEY, name)
  {
    var n := name[o - 7..];
    PrefixOf(KEY, n, rest);
    assert name[o - 7..][..|KEY|] == KEY;
  }

  /** No later call of fgets on an assignment that does not fit sets a string, unless the name itself was cut in front
      of an assignment to the rest of it. */
  lemma LaterReads(name: string, s: string, more: string, k: nat, kinds: string -> Kind)
    requires '=' !in name && '\n' !in name && '\n' !in s
    requires k > 0 && (LINE_SIZE - 1) * k <= |Assignment(name, s)|
    ensures var out := ReadText(Chunk(After(Assignment(name, s) + (['\n'] + more), k), LINE_SIZE - 1), kinds);
            && (out.Value? <==>
                  Resumes(name, s, (LINE_SIZE - 1) * k) && kinds(name[(LINE_SIZE - 1) * k..]) == StringSymbol)
            && (out.Value? ==> out == Value(name[(LINE_SIZE - 1) * k..], s))
    ensures |name| < LINE_SIZE - 1 ==>
              !ReadText(Chunk(After(Assignment(name, s) + (['\n'] + more), k), LINE_SIZE - 1), kinds).Value?
  {
    hide Assignment, ReadText, Chunk, After;
    OneLine(name, s);
    AfterPieces(Assignment(name, s), more, k);
    LaterPart(name, s, more, (LINE_SIZE - 1) * k, kinds);
  }

  /** The second piece can set a symbol of another kind: 1013 characters and `CONFIG_B=y` as the string A set B. */
  lemma LaterSetsLetter(x: string, kinds: string -> Kind)
    requires |x| == 1013 && NoSpecial(x) && '\n' !in x && kinds("B") != StringSymbol
    ensures var input := Assignment("A", x + "CONFIG_B=y") + "\n";
            ReadText(Chunk(After(input, 1), LINE_SIZE - 1), kinds) == Letter("B", 'y')
  {
    hide Assignment, Escape, Unescape, After, Index, ReadText, Chunk, NoSpecial;
    var s, left := x + "CONFIG_B=y", "CONFIG_B=y\"";
    var a := Assignment("A", s);
    SecondPiece(x, s);
    OneLine("A", s);
    AfterPieces(a, "", 1);
    assert (LINE_SIZE - 1) * 1 == LINE_SIZE - 1;
    assert ['\n'] + "" == "\n";
    ChunkOfLine(left, "", LINE_SIZE - 1);
    assert left + "\n" == "CONFIG_B=y\"\n";
    LetterLine(kinds);
  }

  lemma SecondPiece(x: string, s: string)
    requires |x| == 1013 && NoSpecial(x) && s == x + "CONFIG_B=y"
    ensures |Assignment("A", s)| == 1034 && Assignment("A", s)[LINE_SIZE - 1..] == "CONFIG_B=y\""
  {
    hide Escape;
    PlainEscape(s);
    var front := "CONFIG_A=\"" + x;
    assert Assignment("A", s) == front + "CONFIG_B=y\"";
    assert |front| == LINE_SIZE - 1;
  }

  lemma LetterLine(kinds: string -> Kind)
    requires kinds("B") != StringSymbol
    ensures ReadText("CONFIG_B=y\"\n", kinds) == Letter("B", 'y')
  {
    hide ReadText, Index;
    ReadAssigned("B", "y\"\n", kinds);
    assert KEY + ("B" + (['='] + "y\"\n")) == "CONFIG_B=y\"\n";
    ChompLine("y\"");
    assert "y\"" + "\n" == "y\"\n";
  }

  lemma PlainEscape(s: string)
    requires NoSpecial(s)
    ensures Escape(s) == s
  {
    assert s[..|s|] == s && s[|s|..] == "";
    EscapePlain(s, |s|);
    assert Escape("") == "" && s + "" == s;
  }

  // ----- the reader -----

  lemma ChunkStep(done: string, rest: string, room: nat, target: string)
    requires rest != "" && room > 0 && done + Chunk(rest, room) == target
    ensures (done + [rest[0]]) + (if rest[0] == '\n' then "" else Chunk(rest[1..], room - 1)) == target
  {
  }

  lemma ChunkEnd(done: string, rest: string, room: nat, target: string)
    requires rest == "" || room == 0
    requires done + Chunk(rest, room) == target
    ensures done == target
  {
  }

  /** One call of fgets for a line buffer. */
  method Fgets(line: array<char>, input: string) returns (n: nat)
    requires line.Length == LINE_SIZE && NoNul(input)
    modifies line
    ensures CString(line[..], 0, Chunk(input, LINE_SIZE - 1)) && n == |Chunk(input, LINE_SIZE - 1)|
  {
    hide Chunk;
    ghost var all := Chunk(input, LINE_SIZE - 1);
    var rest := input;
    n := 0;
    var more := true;
    while more && n < LINE_SIZE - 1 && rest != ""
      invariant n <= LINE_SIZE - 1 && NoNul(rest) && NoNul(line[..n])
      invariant line[..n] + (if more then Chunk(rest, LINE_SIZE - 1 - n) else "") == all
      decreases |rest|, more
    {
      ChunkStep(line[..n], rest, LINE_SIZE - 1 - n, all);
      more := rest[0] != '\n';
      line[n] := rest[0];
      assert line[..n + 1] == line[..n] + [rest[0]];
      n := n + 1;
      rest := rest[1..];
    }
    if more { ChunkEnd(line[..n], rest, LINE_SIZE - 1 - n, all); }
    line[n] := '\0';
  }

  method StrChr(line: array<char>, p: nat, c: char, ghost s: string) returns (q: int)
    requires CString(line[..], p, s) && c != '\0'
    ensures q == (if Index(c, s) == |s| then -1 else p + Index(c, s)) && q < line.Length
  {
    var i: nat := p;
    CStringAt(line[..], p, s, 0);
    while line[i] != c && line[i] != '\0'
      invariant p <= i <= p + |s| < line.Length && c !in s[..i - p]
      invariant line[i] == if i == p + |s| then '\0' else s[i - p]
      decreases p + |s| - i
    {
      assert s[..i - p + 1] == s[..i - p] + [s[i - p]];
      i := i + 1;
      CStringAt(line[..], p, s, i - p);
    }
    FirstIndex(c, s, i - p);
    q := if line[i] == c then i else -1;
  }

  lemma FirstIndex(c: char, s: string, k: nat)
    requires k <= |s| && c !in s[..k] && (k < |s| && NoNul(s) ==> s[k] == c || s[k] == '\0')
    ensures NoNul(s) ==> Index(c, s) == k
  {
    var j := Index(c, s);
    assert forall i :: 0 <= i < k ==> s[i] in s[..k];
    assert forall i :: 0 <= i < j ==> s[i] in s[..j];
    assert k < |s| ==> s[k] in s;
  }

  lemma KeyInBuffer(line: string, t: string)
    requires |line| == LINE_SIZE && CString(line, 0, t)
    ensures line[..7] == KEY <==> |t| >= 7 && t[..7] == KEY
  {
    assert line[0..|t|] == line[..|t|];
    if |t| >= 7 {
      assert line[..7] == line[..|t|][..7];
    } else {
      assert line[..7][|t|] == '\0' != KEY[|t|];
    }
  }

  /** Overwriting a character of the string with NUL cuts it in two. */
  lemma CutAt(buf: string, p: nat, s: string, k: nat)
    requires CString(buf, p, s) && k < |s|
    ensures CString(buf[p + k := '\0'], p, s[..k])
    ensures CString(buf[p + k := '\0'], p + k + 1, s[k + 1..])
  {
    var b := buf[p + k := '\0'];
    CStringTail(buf, p, s, k + 1);
    assert b[p..p + k] == buf[p..p + |s|][..k];
    assert b[p + k + 1..p + |s|] == buf[p + k + 1..p + |s|];
  }

  /** Cuts the text at a newline, and at a carriage return in front of it. */
  method CutLineEnd(line: array<char>, p: nat, ghost v: string)
    requires p > 0 && line.Length > p && line[p - 1] == '\0' && CString(line[..], p, v)
    modifies line
    ensures CString(line[..], p, Chomp(v)) && line[..p] == old(line[..p])
  {
    hide CString;
    ghost var b := line[..];
    var p2 := StrChr(line, p, '\n', v);
    if p2 != -1 {
      ghost var k := Index('\n', v);
      CutAt(b, p, v, k);
      line[p2] := '\0';
      assert line[..] == b[p + k := '\0'];
      p2 := p2 - 1;
      CutCarriage(line[..], p, v[..k]);
      assert k > 0 ==> v[..k][k - 1] == v[k - 1] && v[..k][..k - 1] == v[..k - 1];
      if line[p2] == '\r' {
        ghost var b1 := line[..];
        line[p2] := '\0';
        assert line[..] == b1[p2 := '\0'];
      }
    }
  }

  lemma CutCarriage(buf: string, p: nat, s: string)
    requires 0 < p < |buf| && buf[p - 1] == '\0' && CString(buf, p, s)
    ensures p + |s| <= |buf|
    ensures s != "" ==> buf[p + |s| - 1] == s[|s| - 1] && CString(buf[p + |s| - 1 := '\0'], p, s[..|s| - 1])
  {
    if s != "" {
      CStringAt(buf, p, s, |s| - 1);
      CutAt(buf, p, s, |s| - 1);
    }
  }

  lemma BehindKey(line: string, t: string)
    requires |line| == LINE_SIZE && CString(line, 0, t) && |t| >= 7
    ensures CString(line, 7, t[7..])
  {
    CStringTail(line, 0, t, 7);
  }

  /** conf_set_sym_val for string, boolean and tristate symbols: the outcome for the value behind '='. */
  method SetValue(line: array<char>, p: nat, name: string, kinds: string -> Kind, ghost v: string)
      returns (o: Outcome)
    requires CString(line[..], p, v)
    modifies line
    ensures o == ReadValue(name, v, kinds)
  {
    CStringAt(line[..], p, v, 0);
    if kinds(name) != StringSymbol {
      if line[p] == 'm' && kinds(name) == TristateSymbol { return Letter(name, 'm'); }
      if line[p] == 'y' { return Letter(name, 'y'); }
      if line[p] == 'n' { return Letter(name, 'n'); }
      return NotTristate;
    }
    if line[p] != '"' { return NotQuoted; }
    CStringTail(line[..], p, v, 1);
    var ok := Unquote(line, p + 1, v[1..]);
    if !ok { return Invalid; }
    ghost var value := Unescape(v[1..]).value;
    var n := StrLen(line, p + 1, value);
    ValueInBuffer(line[..], p + 1, value);
    o := Value(name, line[p + 1..p + 1 + n]);
  }

  /** The case of a line that starts with 'C' in conf_read_simple, for a symbol of any kind. */
  method ReadLine(line: array<char>, kinds: string -> Kind, ghost t: string) returns (o: Outcome)
    requires line.Length == LINE_SIZE && CString(line[..], 0, t)
    modifies line
    ensures o == ReadText(t, kinds)
  {
    hide CString, Chomp, ReadValue, Index;
    KeyInBuffer(line[..], t);
    assert line[..][..7] == line[..7];
    if line[..7] != KEY { return Unexpected; }
    BehindKey(line[..], t);
    ghost var rest := t[7..];
    var p := StrChr(line, 7, '=', rest);
    if p == -1 { return NoValue; }
    ghost var k := Index('=', rest);
    ghost var b := line[..];
    CutAt(b, 7, rest, k);
    line[p] := '\0';
    assert line[..] == b[7 + k := '\0'];
    p := p + 1;
    ghost var name, v := rest[..k], rest[k + 1..];
    NameInBuffer(line[..], name);
    CutLineEnd(line, p, v);
    v := Chomp(v);
    assert line[7..p - 1] == line[..p][7..p - 1];
    o := SetValue(line, p, line[7..p - 1], kinds, v);
  }

  lemma NameInBuffer(line: string, name: string)
    requires CString(line, 7, name)
    ensures 7 + |name| < |line| && line[7..7 + |name|] == name && line[7 + |name|] == '\0'
  {
  }

  lemma ValueInBuffer(line: string, p: nat, v: string)
    requires CString(line, p, v)
    ensures p + |v| < |line| && line[p..p + |v|] == v
  {
  }
}
