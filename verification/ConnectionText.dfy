/**
 * A machine's incoming connections, and the text in which RIMachine::serialize
 * sends them to a new client. The table is a multimap: connections in order of
 * their source's object id, and in order of insertion for one source.
 */
module ConnectionText {

  datatype Connection = Connection(source: int, output: string, input: string)

  /* The table. */

  ghost predicate Ordered(t: seq<Connection>) {
    forall i, j :: 0 <= i < j < |t| ==> t[i].source <= t[j].source
  }

  /** multimap::insert puts a connection behind those of the same source. */
  function WithConnection(t: seq<Connection>, c: Connection): (r: seq<Connection>)
    ensures |r| == |t| + 1
  {
    if t == [] then [c]
    else if t[0].source > c.source then [c] + t
    else [t[0]] + WithConnection(t[1..], c)
  }

  lemma {:induction false} WithConnectionElements(t: seq<Connection>, c: Connection)
    ensures multiset(WithConnection(t, c)) == multiset(t) + multiset{c}
  {
    if t != [] {
      assert t == [t[0]] + t[1..];
      if t[0].source <= c.source {
        WithConnectionElements(t[1..], c);
      }
    }
  }

  lemma {:induction false} WithConnectionOrdered(t: seq<Connection>, c: Connection)
    requires Ordered(t)
    ensures Ordered(WithConnection(t, c))
  {
    if t != [] && t[0].source <= c.source {
      WithConnectionOrdered(t[1..], c);
      WithConnectionElements(t[1..], c);
      var r := WithConnection(t[1..], c);
      forall i | 0 <= i < |r| ensures t[0].source <= r[i].source {
        assert r[i] in multiset(r);
        assert r[i] == c || r[i] in t[1..];
      }
    }
  }

  lemma {:induction false} WithConnectionLast(t: seq<Connection>, c: Connection)
    requires forall d <- t :: d.source <= c.source
    ensures WithConnection(t, c) == t + [c]
  {
    if t != [] {
      assert t[0] in t && forall d <- t[1..] :: d in t;
      WithConnectionLast(t[1..], c);
      assert t + [c] == [t[0]] + (t[1..] + [c]);
    }
  }

  /** In an ordered table the new connection stands between those of its own and lower sources and those of higher ones. */
  lemma {:induction false} WithConnectionPlace(t: seq<Connection>, c: Connection) returns (k: nat)
    requires Ordered(t)
    ensures k <= |t| && WithConnection(t, c) == t[..k] + [c] + t[k..]
    ensures forall i :: 0 <= i < k ==> t[i].source <= c.source
    ensures forall i :: k <= i < |t| ==> t[i].source > c.source
  {
    k := 0;
    if t != [] && t[0].source <= c.source {
      k := WithConnectionPlace(t[1..], c);
      Shifted(t, c, k);
      k := k + 1;
    }
  }

  lemma Shifted(t: seq<Connection>, c: Connection, k: nat)
    requires t != [] && k < |t|
    ensures [t[0]] + (t[1..][..k] + [c] + t[1..][k..]) == t[..k + 1] + [c] + t[k + 1..]
  {
  }

  /* Numbers in text. */

  function Digit(d: nat): char
    requires d < 10
  {
    '0' + d as char
  }

  predicate IsDigit(c: char) {
    '0' <= c <= '9'
  }

  function Decimal(n: nat): (s: string)
    ensures s != [] && forall c <- s :: IsDigit(c)
  {
    if n < 10 then [Digit(n)] else Decimal(n / 10) + [Digit(n % 10)]
  }

  /** operator<< of an int. */
  function ToText(v: int): (s: string)
    ensures s != [] && forall c <- s :: IsDigit(c) || c == '-'
  {
    if v < 0 then ['-'] + Decimal(-v) else Decimal(v)
  }

  /** The leading digits of s, read as a number that starts with `so far`. */
  function Digits(s: string, soFar: nat): nat {
    if s == [] || !IsDigit(s[0]) then soFar else Digits(s[1..], 10 * soFar + (s[0] as int - '0' as int))
  }

  predicate IsSpace(c: char) {
    c == ' ' || '\t' <= c <= '\r'
  }

  /** std::stol: white space, a sign, digits; an exception without digits. What follows is ignored. */
  datatype Number = Value(v: int) | InvalidArgument

  function Unsigned(s: string, sign: int): Number {
    if s == [] || !IsDigit(s[0]) then InvalidArgument else Value(sign * Digits(s, 0))
  }

  function Stol(s: string): Number {
    if s == [] then InvalidArgument
    else if IsSpace(s[0]) then Stol(s[1..])
    else if s[0] == '-' then Unsigned(s[1..], -1)
    else if s[0] == '+' then Unsigned(s[1..], 1)
    else Unsigned(s, 1)
  }

  /** The cast to int32_t. */
  function ToInt32(v: int): (r: int)
    ensures -0x8000_0000 <= r < 0x8000_0000
    ensures (v - r) % 0x1_0000_0000 == 0
    ensures -0x8000_0000 <= v < 0x8000_0000 ==> r == v
  {
    (v + 0x8000_0000) % 0x1_0000_0000 - 0x8000_0000
  }

  lemma {:induction false} DigitsDecimal(n: nat, rest: string)
    requires rest == [] || !IsDigit(rest[0])
    ensures Digits(Decimal(n) + rest, 0) == n
  {
    DigitsFrom(n, rest);
  }

  /** Reading the decimals of n and then the rest is reading the rest from n on. */
  lemma {:induction false} DigitsFrom(n: nat, rest: string)
    ensures Digits(Decimal(n) + rest, 0) == Digits(rest, n)
    decreases n
  {
    if n < 10 {
      assert (Decimal(n) + rest)[1..] == rest;
    } else {
      var last := [Digit(n % 10)] + rest;
      assert Decimal(n) + rest == Decimal(n / 10) + last;
      hide Decimal;
      DigitsFrom(n / 10, last);
      assert last[1..] == rest;
      assert IsDigit(last[0]) && last[0] as int - '0' as int == n % 10;
    }
  }

  lemma StolText(v: int)
    ensures Stol(ToText(v)) == Value(v)
  {
    var d := Decimal(if v < 0 then -v else v);
    assert d + [] == d;
    DigitsDecimal(if v < 0 then -v else v, []);
    assert IsDigit(d[0]);
    if v < 0 {
      assert ToText(v)[1..] == d;
    }
  }

  /** What stol reads: white space, a sign or none, digits; it stops at anything else. */
  lemma {:induction false} StolReads(spaces: string, sign: string, n: nat, tail: string)
    requires forall i :: 0 <= i < |spaces| ==> spaces[i] == ' ' || '\t' <= spaces[i] <= '\r'
    requires sign == "" || sign == "+" || sign == "-"
    requires tail == [] || !('0' <= tail[0] <= '9')
    ensures Stol(spaces + (sign + (Decimal(n) + tail))) == Value((if sign == "-" then -1 else 1) * n)
  {
    var number := sign + (Decimal(n) + tail);
    if spaces == [] {
      assert spaces + number == number;
      DigitsDecimal(n, tail);
      if sign == "" {
        assert number == Decimal(n) + tail && IsDigit(Decimal(n)[0]);
      } else {
        assert number[1..] == Decimal(n) + tail && IsDigit(Decimal(n)[0]);
      }
    } else {
      assert (spaces + number)[1..] == spaces[1..] + number && (spaces + number)[0] == spaces[0];
      StolReads(spaces[1..], sign, n, tail);
    }
  }

  /** It throws if there is no digit behind the white space and the sign. */
  lemma {:induction false} StolThrows(spaces: string, sign: string, tail: string)
    requires forall i :: 0 <= i < |spaces| ==> spaces[i] == ' ' || '\t' <= spaces[i] <= '\r'
    requires sign == "" || sign == "+" || sign == "-"
    requires tail == [] || !('0' <= tail[0] <= '9')
    requires sign == "" && tail != [] ==> !(tail[0] == ' ' || '\t' <= tail[0] <= '\r' || tail[0] == '+' || tail[0] == '-')
    ensures Stol(spaces + (sign + tail)) == InvalidArgument
  {
    if spaces == [] {
      assert spaces + (sign + tail) == sign + tail;
      assert sign == "" ==> sign + tail == tail;
      assert sign != "" ==> (sign + tail)[1..] == tail;
    } else {
      assert (spaces + (sign + tail))[1..] == spaces[1..] + (sign + tail) && (spaces + (sign + tail))[0] == spaces[0];
      StolThrows(spaces[1..], sign, tail);
    }
  }

  /* The text. */

  function Entry(c: Connection): string {
    ToText(c.source) + ['@'] + c.output + ['{'] + c.input + ['}']
  }

  function Entries(t: seq<Connection>): string {
    if t == [] then [] else Entry(t[0]) + Entries(t[1..])
  }

  /** The value of "connections" that serialize sends. */
  function Serialized(t: seq<Connection>): string {
    if Entries(t) == [] then "@{}" else Entries(t)
  }

  /* Reading. */

  /** A stringstream: what is left, and whether reading has run into the end. */
  datatype Stream = Stream(rest: string, eof: bool)

  datatype Line = Line(left: Stream, text: string)

  /** The characters before the first `delim`, or all of them. */
  function Before(s: string, delim: char): (r: string)
    ensures |r| <= |s| && r == s[..|r|] && delim !in r
    ensures |r| < |s| ==> s[|r|] == delim
  {
    if s == [] || s[0] == delim then [] else [s[0]] + Before(s[1..], delim)
  }

  /** std::getline: at the end it reads nothing and leaves the string it was given. */
  function GetLine(from: Stream, previous: string, delim: char): (r: Line)
    ensures !from.eof ==> delim !in r.text
    ensures |r.left.rest| <= |from.rest|
    ensures !from.eof && !r.left.eof ==> |r.left.rest| < |from.rest|
  {
    if from.eof then
      Line(from, previous)
    else
      var text := Before(from.rest, delim);
      if |text| < |from.rest| then
        Line(Stream(from.rest[|text| + 1..], false), text)
      else
        Line(Stream([], true), text)
  }

  datatype Parsed = Table(t: seq<Connection>) | Exception

  /** The loop of parse_serialized_connections_data, from one of its passes on. */
  function ParseFrom(from: Stream, srcid: string, srcName: string, dstName: string, t: seq<Connection>): Parsed
    decreases |from.rest|, if from.eof then 0 else 1
  {
    if from.eof || srcid == "" then
      Table(t)
    else
      var src := GetLine(from, srcName, '{');
      var dst := GetLine(src.left, dstName, '}');
      var next := GetLine(dst.left, srcid, '@');
      if src.text == "" || dst.text == "" then
        ParseFrom(next.left, next.text, src.text, dst.text, t)
      else if Stol(srcid).InvalidArgument? then
        Exception
      else
        ParseFrom(next.left, next.text, src.text, dst.text,
                  WithConnection(t, Connection(ToInt32(Stol(srcid).v), src.text, dst.text)))
  }

  /** parse_serialized_connections_data on a new client object, whose table is empty. */
  function ParsedText(s: string): Parsed {
    var first := GetLine(Stream(s, false), "", '@');
    ParseFrom(first.left, first.text, "", "", [])
  }

  /** The loop of serialize over the table. */
  method Serialize(t: seq<Connection>) returns (value: string)
    ensures value == Serialized(t)
  {
    hide *;
    value := [];
    assert t[0..] == t;
    for i := 0 to |t|
      invariant value + Entries(t[i..]) == Entries(t)
    {
      var c := t[i];
      EntriesFrom(t, i);
      ghost var was, rest := value, Entries(t[i + 1..]);
      value := value + (ToText(c.source) + ['@'] + c.output + ['{'] + c.input + ['}']);
      assert was + (Entry(c) + rest) == (was + Entry(c)) + rest;
    }
    EntriesEnd(t);
    if value == "" {
      value := "@{}";
    }
  }

  /** Two connections as they go over the wire, and no connection at all. */
  lemma WireText()
    ensures Serialized([Connection(7, "out", "in"), Connection(-12, "l", "r")]) == "7@out{in}-12@l{r}"
    ensures Serialized([]) == "@{}"
  {
    assert Decimal(12) == "12";
    assert Entry(Connection(7, "out", "in")) == "7@out{in}" && Entry(Connection(-12, "l", "r")) == "-12@l{r}";
    hide Entry;
    assert Entries([Connection(-12, "l", "r")]) == "-12@l{r}";
  }

  lemma EntriesEnd(t: seq<Connection>)
    ensures Entries(t[|t|..]) == []
    ensures Serialized(t) == if Entries(t) == [] then "@{}" else Entries(t)
  {
  }

  lemma EntriesFrom(t: seq<Connection>, i: nat)
    requires i < |t|
    ensures Entries(t[i..]) == Entry(t[i]) + Entries(t[i + 1..])
    ensures Entry(t[i]) == ToText(t[i].source) + ['@'] + t[i].output + ['{'] + t[i].input + ['}']
  {
    assert t[i..][1..] == t[i + 1..];
  }

  /** parse_serialized_connections_data, into the table of a new client object. */
  method Parse(serialized: string) returns (r: Parsed)
    ensures r == ParsedText(serialized)
  {
    var from := Stream(serialized, false);
    var srcid, srcName, dstName := "", "", "";
    var connectionData: seq<Connection> := [];
    var line := GetLine(from, srcid, '@');
    from, srcid := line.left, line.text;
    while !from.eof && srcid != ""
      invariant ParseFrom(from, srcid, srcName, dstName, connectionData) == ParsedText(serialized)
      decreases |from.rest|, if from.eof then 0 else 1
    {
      line := GetLine(from, srcName, '{');
      from, srcName := line.left, line.text;
      line := GetLine(from, dstName, '}');
      from, dstName := line.left, line.text;
      if srcid != "" && srcName != "" && dstName != "" {
        var id := Stol(srcid);
        if id.InvalidArgument? {
          return Exception;
        }
        connectionData := WithConnection(connectionData, Connection(ToInt32(id.v), srcName, dstName));
      }
      line := GetLine(from, srcid, '@');
      from, srcid := line.left, line.text;
    }
    r := Table(connectionData);
  }

  /* The round trip. */

  /** Names that the text can carry. */
  predicate Carried(c: Connection) {
    c.output != "" && '{' !in c.output && c.input != "" && '}' !in c.input
  }

  predicate IsInt32(v: int) {
    -0x8000_0000 <= v < 0x8000_0000
  }

  lemma {:induction false} BeforeFirst(s: string, delim: char, tail: string)
    requires delim !in s
    ensures Before(s + ([delim] + tail), delim) == s
    ensures (s + ([delim] + tail))[|s| + 1..] == tail
  {
    var all := s + ([delim] + tail);
    if s != [] {
      assert all[1..] == s[1..] + ([delim] + tail);
      BeforeFirst(s[1..], delim, tail);
      assert s == [s[0]] + s[1..];
    } else {
      assert all[0] == delim;
    }
  }

  lemma GetLineFirst(s: string, delim: char, tail: string, previous: string)
    requires delim !in s
    ensures GetLine(Stream(s + ([delim] + tail), false), previous, delim) == Line(Stream(tail, false), s)
  {
    BeforeFirst(s, delim, tail);
  }

  /** An entry without the number and '@' before it. */
  function Names(c: Connection, tail: string): string {
    c.output + (['{'] + (c.input + (['}'] + tail)))
  }

  lemma EntryNames(c: Connection, tail: string)
    ensures Entry(c) + tail == ToText(c.source) + (['@'] + Names(c, tail))
  {
  }

  /** Reading on at the number of the next entry, or at the end. */
  lemma NextNumber(rest: seq<Connection>, previous: string)
    ensures GetLine(Stream(Entries(rest), false), previous, '@') ==
            if rest == [] then Line(Stream([], true), "")
            else Line(Stream(Names(rest[0], Entries(rest[1..])), false), ToText(rest[0].source))
  {
    if rest != [] {
      EntryNames(rest[0], Entries(rest[1..]));
      GetLineFirst(ToText(rest[0].source), '@', Names(rest[0], Entries(rest[1..])), previous);
    }
  }

  /** One pass of the reading loop takes up one entry. */
  lemma {:induction false} ParseEntries(done: seq<Connection>, rest: seq<Connection>, srcName: string, dstName: string)
    requires rest != [] && Ordered(done + rest) && AllCarried(rest)
    ensures ParseFrom(Stream(Names(rest[0], Entries(rest[1..])), false), ToText(rest[0].source), srcName, dstName, done)
         == Table(done + rest)
    decreases |rest|
  {
    hide *;
    var c, tail := rest[0], rest[1..];
    FirstCarried(rest);
    Regroup(done, rest);
    LastInOrder(done, rest);
    ParseStep(c, tail, srcName, dstName, done);
    if tail != [] {
      ParseEntries(done + [c], tail, c.output, c.input);
    }
  }

  ghost predicate AllCarried(t: seq<Connection>) {
    forall c <- t :: Carried(c) && IsInt32(c.source)
  }

  lemma FirstCarried(t: seq<Connection>)
    requires t != [] && AllCarried(t)
    ensures Carried(t[0]) && IsInt32(t[0].source) && AllCarried(t[1..])
  {
    assert t[0] in t && forall d <- t[1..] :: d in t;
  }

  lemma Regroup(done: seq<Connection>, rest: seq<Connection>)
    requires rest != []
    ensures (done + [rest[0]]) + rest[1..] == done + rest
    ensures rest[1..] == [] ==> done + [rest[0]] == done + rest
  {
  }

  lemma ParseStep(c: Connection, tail: seq<Connection>, srcName: string, dstName: string, t: seq<Connection>)
    requires Carried(c) && IsInt32(c.source)
    ensures ParseFrom(Stream(Names(c, Entries(tail)), false), ToText(c.source), srcName, dstName, t)
         == if tail == [] then Table(WithConnection(t, c))
            else ParseFrom(Stream(Names(tail[0], Entries(tail[1..])), false), ToText(tail[0].source), c.output, c.input,
                           WithConnection(t, c))
  {
    hide Names, Entries, Stol, ToText, GetLine, WithConnection;
    ReadNames(c, Entries(tail), srcName, dstName);
    NextNumber(tail, ToText(c.source));
    StolText(c.source);
  }

  lemma ReadNames(c: Connection, tail: string, srcName: string, dstName: string)
    requires Carried(c)
    ensures var src := GetLine(Stream(Names(c, tail), false), srcName, '{');
            && src == Line(Stream(c.input + (['}'] + tail), false), c.output)
            && GetLine(src.left, dstName, '}') == Line(Stream(tail, false), c.input)
  {
    GetLineFirst(c.output, '{', c.input + (['}'] + tail), srcName);
    GetLineFirst(c.input, '}', tail, dstName);
  }

  /** A text cut off behind an '@': what is left of the output is connected to the input before it. */
  lemma CutOff(c: Connection, source: int, output: string)
    requires c.output != "" && '{' !in c.output && c.input != "" && '}' !in c.input && output != "" && '{' !in output
    requires -0x8000_0000 <= c.source < 0x8000_0000 && -0x8000_0000 <= source < 0x8000_0000
    ensures ParsedText(Entry(c) + (ToText(source) + (['@'] + output)))
         == Table(WithConnection([c], Connection(source, output, c.input)))
  {
    var tail := ToText(source) + (['@'] + output);
    EntryNames(c, tail);
    GetLineFirst(ToText(c.source), '@', Names(c, tail), "");
    GetLineFirst(ToText(source), '@', output, ToText(c.source));
    hide Names, Entry, Stol, ToText, GetLine, Before, ParseFrom, WithConnection;
    FirstPass(c, tail, Stream(output, false), ToText(source));
    LastPass(source, output, c.output, c.input, [c]);
  }

  lemma FirstPass(c: Connection, tail: string, left: Stream, srcid: string)
    requires Carried(c) && IsInt32(c.source) && GetLine(Stream(tail, false), ToText(c.source), '@') == Line(left, srcid)
    ensures ParseFrom(Stream(Names(c, tail), false), ToText(c.source), "", "", [])
         == ParseFrom(left, srcid, c.output, c.input, [c])
  {
    hide Names, Stol, ToText, GetLine;
    ReadNames(c, tail, "", "");
    StolText(c.source);
  }

  lemma LastPass(source: int, output: string, srcName: string, dstName: string, t: seq<Connection>)
    requires IsInt32(source) && output != "" && '{' !in output && dstName != ""
    ensures ParseFrom(Stream(output, false), ToText(source), srcName, dstName, t)
         == Table(WithConnection(t, Connection(source, output, dstName)))
  {
    StolText(source);
    assert ToText(source) != "";
    hide Stol, ToText, WithConnection;
    var end := Stream([], true);
    assert GetLine(Stream(output, false), srcName, '{') == Line(end, output);
    assert GetLine(end, dstName, '}') == Line(end, dstName) && GetLine(end, ToText(source), '@') == Line(end, ToText(source));
    hide GetLine, Before;
    assert ParseFrom(end, ToText(source), output, dstName, WithConnection(t, Connection(source, output, dstName)))
        == Table(WithConnection(t, Connection(source, output, dstName)));
  }

  lemma LastInOrder(done: seq<Connection>, rest: seq<Connection>)
    requires rest != [] && Ordered(done + rest)
    ensures WithConnection(done, rest[0]) == done + [rest[0]]
  {
    assert (done + rest)[|done|] == rest[0];
    forall d | d in done ensures d.source <= rest[0].source {
      var i :| 0 <= i < |done| && done[i] == d;
      assert (done + rest)[i] == d;
    }
    WithConnectionLast(done, rest[0]);
  }

  /** Whatever is read, each connection has names that the text can carry. */
  lemma {:induction false} ParseCarried(from: Stream, srcid: string, srcName: string, dstName: string, t: seq<Connection>)
    requires (forall c <- t :: Carried(c)) && '}' !in dstName
    ensures var r := ParseFrom(from, srcid, srcName, dstName, t); r.Table? ==> forall c <- r.t :: Carried(c)
    decreases |from.rest|, if from.eof then 0 else 1
  {
    if !from.eof && srcid != "" {
      var src := GetLine(from, srcName, '{');
      var dst := GetLine(src.left, dstName, '}');
      var next := GetLine(dst.left, srcid, '@');
      assert '{' !in src.text && '}' !in dst.text;
      if src.text == "" || dst.text == "" {
        ParseCarried(next.left, next.text, src.text, dst.text, t);
      } else if !Stol(srcid).InvalidArgument? {
        var c := Connection(ToInt32(Stol(srcid).v), src.text, dst.text);
        WithConnectionElements(t, c);
        assert forall d <- WithConnection(t, c) :: d in multiset(WithConnection(t, c));
        assert forall d <- WithConnection(t, c) :: d == c || d in t;
        ParseCarried(next.left, next.text, src.text, dst.text, WithConnection(t, c));
      }
    }
  }

  /** A snapshot reads back as the table exactly if the text can carry all its names. */
  lemma RoundTrip(t: seq<Connection>)
    requires Ordered(t) && forall c <- t :: IsInt32(c.source)
    ensures ParsedText(Serialized(t)) == Table(t) <==> forall c <- t :: Carried(c)
  {
    hide *;
    OnlyCarried(Serialized(t));
    if AllCarried(t) {
      if t == [] {
        EmptyReads();
      } else {
        EntriesRead(t);
      }
    }
    CarriedAndInt32(t);
  }

  lemma CarriedAndInt32(t: seq<Connection>)
    requires forall c <- t :: IsInt32(c.source)
    ensures AllCarried(t) <==> forall c <- t :: Carried(c)
  {
    hide Carried, IsInt32;
  }

  lemma OnlyCarried(s: string)
    ensures ParsedText(s).Table? ==> forall c <- ParsedText(s).t :: Carried(c)
  {
    hide Carried, ParseFrom, GetLine;
    var first := GetLine(Stream(s, false), "", '@');
    ParseCarried(first.left, first.text, "", "", []);
  }

  lemma EmptyReads()
    ensures ParsedText(Serialized([])) == Table([])
  {
    GetLineFirst("", '@', "{}", "");
    assert "@{}" == "" + (['@'] + "{}");
  }

  lemma EntriesRead(t: seq<Connection>)
    requires t != [] && Ordered(t) && AllCarried(t)
    ensures ParsedText(Serialized(t)) == Table(t)
  {
    assert [] + t == t;
    NotEmpty(t);
    NextNumber(t, "");
    ParseEntries([], t, "", "");
    hide Entries, Names, ToText, GetLine, ParseFrom, AllCarried, Ordered;
  }

  lemma NotEmpty(t: seq<Connection>)
    requires t != []
    ensures Entries(t) != [] && Serialized(t) == Entries(t)
  {
    assert |Entries(t)| >= |Entry(t[0])| > 0;
  }
}
