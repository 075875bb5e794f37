/**
  Reading one syslog message: the priority, the header fields of section 6.2 of
  RFC 5424, NILVALUEs, structured data and the message text.

  Text that does not have the RFC 5424 header goes to the heuristic BSD branch,
  which is not part of this model. The ISO date reader is a parameter.
 */
module SyslogMessages {
  import opened Decimal
  import opened Options
  import opened StructuredData

  const CLOCK_SKEW_LIMIT := 24 * 3600
  const BOM := '\U{FEFF}'

  /** White space of `str.strip` and of `\s`. */
  predicate IsSpace(c: char) {
    || '\U{0009}' <= c <= '\U{000D}' || '\U{001C}' <= c <= '\U{0020}' || c == '\U{0085}' || c == '\U{00A0}'
    || c == '\U{1680}' || '\U{2000}' <= c <= '\U{200A}' || c == '\U{2028}' || c == '\U{2029}' || c == '\U{202F}'
    || c == '\U{205F}' || c == '\U{3000}'
  }

  predicate IsFrameByte(c: char) { c == '\0' || c == '\r' || c == '\n' || c == ' ' }

  function StripLeft(s: string, drop: char -> bool): string {
    if s != [] && drop(s[0]) then StripLeft(s[1..], drop) else s
  }

  function StripRight(s: string, drop: char -> bool): string {
    if s != [] && drop(s[|s| - 1]) then StripRight(s[..|s| - 1], drop) else s
  }

  /** `str.strip`. */
  function Strip(s: string, drop: char -> bool): string {
    StripRight(StripLeft(s, drop), drop)
  }

  function TokenLength(s: string): (k: nat)
    ensures k <= |s| && (k < |s| ==> IsSpace(s[k]))
    ensures forall i :: 0 <= i < k ==> !IsSpace(s[i])
  {
    if s == [] || IsSpace(s[0]) then 0 else 1 + TokenLength(s[1..])
  }

  /** `^<(\d{1,3})>`: the number and the text behind it. */
  function Priority(s: string): Option<(nat, string)> {
    if s == [] || s[0] != '<' then None
    else
      var k := DigitsLength(s[1..]);
      if 1 <= k <= 3 && k + 1 < |s| && s[k + 1] == '>' then Some((Value(s[1..][..k]), s[k + 2..])) else None
  }

  /** `[1-9]\d{0,2} `: the text behind the version. */
  function AfterVersion(s: string): Option<string> {
    var k := DigitsLength(s);
    if 1 <= k <= 3 && s[0] != '0' && k < |s| && s[k] == ' ' then Some(s[k + 1..]) else None
  }

  /** `\S+ `: a token and the text behind its space. */
  function Token(s: string): Option<(string, string)> {
    var k := TokenLength(s);
    if 0 < k < |s| && s[k] == ' ' then Some((s[..k], s[k + 1..])) else None
  }

  /** `\S+ ?`: the last token, whose space may be missing. */
  function LastToken(s: string): Option<(string, string)> {
    var k := TokenLength(s);
    if k == 0 then None
    else Some((s[..k], if k < |s| && s[k] == ' ' then s[k + 1..] else s[k..]))
  }

  datatype Header = Header(ts: string, host: string, app: string, procid: string, msgid: string, rest: string)

  /** The RFC 5424 header pattern. */
  function ReadHeader(s: string): Option<Header> {
    var v := AfterVersion(s);
    if v.None? then None else
    var ts := Token(v.value);
    if ts.None? then None else
    var host := Token(ts.value.1);
    if host.None? then None else
    var app := Token(host.value.1);
    if app.None? then None else
    var procid := Token(app.value.1);
    if procid.None? then None else
    var msgid := LastToken(procid.value.1);
    if msgid.None? then None else
    Some(Header(ts.value.0, host.value.0, app.value.0, procid.value.0, msgid.value.0, msgid.value.1))
  }

  /** `-`, or a date `dddd-dd-ddT` at the front. */
  predicate LooksLikeTimestamp(s: string) {
    s == "-" ||
    (|s| >= 11 && AllDigits(s[..4]) && s[4] == '-' && AllDigits(s[5..7]) && s[7] == '-'
     && AllDigits(s[8..10]) && s[10] == 'T')
  }

  function Nil(s: string): string { if s == "-" then "" else s }

  /** The device clock is believed only within a day of the receipt time. */
  function Trust(ts: Option<int>, receivedAt: int): int {
    if ts.None? || ts.value - receivedAt > CLOCK_SKEW_LIMIT || receivedAt - ts.value > CLOCK_SKEW_LIMIT
    then receivedAt else ts.value
  }

  /** One separating space and a byte order mark do not belong to the message. */
  function DropLead(s: string): string {
    var r := if s != [] && s[0] == ' ' then s[1..] else s;
    if r != [] && r[0] == BOM then r[1..] else r
  }

  /** Structured data and message behind the header. */
  function ReadBody(rest: string): Parsed {
    var p := if rest != [] && rest[0] == '-' then Parsed("", rest[1..], map[])
             else if rest != [] && rest[0] == '[' then Parse(rest)
             else Parsed("", rest, map[]);
    p.(remainder := DropLead(p.remainder))
  }

  lemma BodyParts(rest: string)
    ensures rest != [] && rest[0] == '-' ==> ReadBody(rest) == Parsed("", DropLead(rest[1..]), map[])
    ensures rest != [] && rest[0] == '[' ==>
              ReadBody(rest) == Parsed(Parse(rest).raw, DropLead(Parse(rest).remainder), Parse(rest).sd)
    ensures rest == [] || (rest[0] != '-' && rest[0] != '[') ==> ReadBody(rest) == Parsed("", DropLead(rest), map[])
  {
    hide Parse, DropLead;
  }

  /** The fields of a parsed message. */
  datatype Fields = Fields(ts: int, facility: Option<nat>, severity: Option<nat>, host: string, app: string,
                           procid: string, msgid: string, structured: string, sd: map<string, map<string, string>>,
                           message: string)

  function ReadPriority(text: string): (Option<nat>, Option<nat>, string) {
    match Priority(text)
    case Some((pri, rest)) => if pri <= 191 then (Some(pri / 8), Some(pri % 8), rest) else (None, None, rest)
    case None => (Some(1), Some(5), text)
  }

  /** What `parse` makes of a message with an RFC 5424 header; None when the BSD branch takes over. */
  function Read(data: string, sourceIp: string, receivedAt: int, iso: string -> Option<int>): Option<Fields> {
    var (facility, severity, text) := ReadPriority(Strip(data, IsFrameByte));
    match ReadHeader(text)
    case None => None
    case Some(h) =>
      if !LooksLikeTimestamp(h.ts) then None
      else
        var body := ReadBody(h.rest);
        Some(Fields(Trust(if h.ts == "-" then None else iso(h.ts), receivedAt), facility, severity,
                    if Nil(h.host) == "" then sourceIp else Nil(h.host), Nil(h.app), Nil(h.procid), Nil(h.msgid),
                    body.raw, body.sd, Strip(body.remainder, IsSpace)))
  }

  method TakeStructuredData(text: string) returns (p: Parsed)
    ensures p == Parse(text)
  {
    var raw, remainder, parsed := ParseStructuredData(text);
    p := Parsed(raw, remainder, parsed);
  }

  /** `SyslogMessage`. */
  class SyslogMessage {
    var receivedAt: int
    var sourceIp: string
    var ts: int
    var facility: Option<nat>
    var severity: Option<nat>
    var host: string
    var app: string
    var procid: string
    var msgid: string
    var message: string
    var structured: string
    var sd: map<string, map<string, string>>

    constructor (receivedAt: int, sourceIp: string)
      ensures this.receivedAt == receivedAt && this.sourceIp == sourceIp
      ensures Contents() == Fields(receivedAt, None, None, "", "", "", "", "", map[], "")
    {
      this.receivedAt, this.sourceIp, ts, facility, severity := receivedAt, sourceIp, receivedAt, None, None;
      host, app, procid, msgid, message, structured, sd := "", "", "", "", "", "", map[];
    }

    ghost function Contents(): Fields
      reads this
    {
      Fields(ts, facility, severity, host, app, procid, msgid, structured, sd, message)
    }

    /** `_parse_5424`: fills in the fields from a matched header. */
    method Parse5424(m: Header, iso: string -> Option<int>)
      modifies this
      ensures receivedAt == old(receivedAt) && sourceIp == old(sourceIp)
      ensures facility == old(facility) && severity == old(severity)
      ensures ts == Trust(if m.ts == "-" then None else iso(m.ts), receivedAt)
      ensures host == Nil(m.host) && app == Nil(m.app) && procid == Nil(m.procid) && msgid == Nil(m.msgid)
      ensures message == ReadBody(m.rest).remainder
      ensures if m.rest != [] && m.rest[0] == '['
              then structured == ReadBody(m.rest).raw && sd == ReadBody(m.rest).sd
              else structured == old(structured) && sd == old(sd)
    {
      BodyParts(m.rest);
      hide *;
      ts := Trust(if m.ts == "-" then None else iso(m.ts), receivedAt);
      host := Nil(m.host);
      app := Nil(m.app);
      procid := Nil(m.procid);
      msgid := Nil(m.msgid);
      var rest := m.rest;
      if rest != [] && rest[0] == '-' {
        rest := rest[1..];
      } else if rest != [] && rest[0] == '[' {
        var p := TakeStructuredData(rest);
        structured, rest, sd := p.raw, p.remainder, p.sd;
      }
      message := MessageText(rest);
    }
  }

  /** The end of `_parse_5424`: what is left behind the structured data is the message. */
  method MessageText(behind: string) returns (rest: string)
    ensures rest == DropLead(behind)
  {
    rest := behind;
    if rest != [] && rest[0] == ' ' {
      rest := rest[1..];
    }
    if rest != [] && rest[0] == BOM {
      rest := rest[1..];
    }
  }

  /** `parse`, up to the choice of the BSD branch. */
  method ParseMessage(data: string, sourceIp: string, receivedAt: int, iso: string -> Option<int>)
    returns (msg: SyslogMessage, is5424: bool)
    ensures fresh(msg) && msg.receivedAt == receivedAt && msg.sourceIp == sourceIp
    ensures is5424 <==> Read(data, sourceIp, receivedAt, iso).Some?
    ensures is5424 ==> msg.Contents() == Read(data, sourceIp, receivedAt, iso).value
  {
    hide ReadHeader, ReadBody, Priority, Strip, LooksLikeTimestamp, Trust;
    var text := Strip(data, IsFrameByte);
    msg := new SyslogMessage(receivedAt, sourceIp);
    var pri := Priority(text);
    if pri.Some? {
      if pri.value.0 <= 191 {
        msg.facility, msg.severity := Some(pri.value.0 / 8), Some(pri.value.0 % 8);
      }
      text := pri.value.1;
    } else {
      msg.facility, msg.severity := Some(1), Some(5);
    }
    var m := ReadHeader(text);
    if m.None? || !LooksLikeTimestamp(m.value.ts) {
      is5424 := false;
      return;
    }
    is5424 := true;
    PlainBody(m.value.rest);
    msg.Parse5424(m.value, iso);
    if msg.host == "" {
      msg.host := sourceIp;
    }
    msg.message := Strip(msg.message, IsSpace);
  }

  lemma PlainBody(rest: string)
    ensures !(rest != [] && rest[0] == '[') ==> ReadBody(rest).raw == "" && ReadBody(rest).sd == map[]
  {
  }

  // ----- printing and reading back

  /** A header field: empty, printed as NILVALUE, or a token other than `-`. */
  predicate IsField(f: string) {
    f != "-" && forall i :: 0 <= i < |f| ==> !IsSpace(f[i])
  }

  /** NILVALUE, or text that starts with a date of ten characters and a `T`. */
  predicate IsTimestamp(ts: string) {
    ts == "-" || (|ts| >= 11 && (forall i :: 0 <= i < 11 ==> FitsAt(ts[i], "0000-00-00T"[i])))
  }

  predicate FitsAt(c: char, pattern: char) {
    if pattern == '0' then '0' <= c <= '9' else c == pattern
  }

  predicate IsToken(t: string) {
    t != [] && forall i :: 0 <= i < |t| ==> !IsSpace(t[i])
  }

  lemma TimestampMeaning(ts: string)
    ensures LooksLikeTimestamp(ts) <==> IsTimestamp(ts)
  {
    if |ts| >= 11 {
      var p := "0000-00-00T";
      assert AllDigits(ts[..4]) <==>
             FitsAt(ts[0], p[0]) && FitsAt(ts[1], p[1]) && FitsAt(ts[2], p[2]) && FitsAt(ts[3], p[3]);
      assert FitsAt(ts[5], p[5]) && FitsAt(ts[6], p[6]) <==> AllDigits(ts[5..7]);
      assert FitsAt(ts[8], p[8]) && FitsAt(ts[9], p[9]) <==> AllDigits(ts[8..10]);
      assert IsTimestamp(ts) ==> FitsAt(ts[4], p[4]) && FitsAt(ts[7], p[7]) && FitsAt(ts[10], p[10]);
    }
  }

  function OrNil(f: string): string { if f == "" then "-" else f }

  function PrintBody(es: seq<Element>, m: string): string {
    (if es == [] then "-" else Print(es)) + if m == [] then [] else [' '] + m
  }

  function PrintHeader(ts: string, host: string, app: string, procid: string, msgid: string, rest: string): string {
    "1 " + (ts + ([' '] + (OrNil(host) + ([' '] + (OrNil(app) + ([' '] + (OrNil(procid) + ([' '] +
    (OrNil(msgid) + ([' '] + rest))))))))))
  }

  function PrintMessage(pri: nat, ts: string, host: string, app: string, procid: string,
                        msgid: string, es: seq<Element>, m: string): string {
    ['<'] + (Numeral(pri) + (['>'] + PrintHeader(ts, host, app, procid, msgid, PrintBody(es, m))))
  }

  lemma ReadToken(f: string, rest: string)
    requires f != [] && forall i :: 0 <= i < |f| ==> !IsSpace(f[i])
    ensures Token(f + ([' '] + rest)) == Some((f, rest))
    ensures LastToken(f + ([' '] + rest)) == Some((f, rest))
  {
    var s := f + ([' '] + rest);
    assert forall i :: 0 <= i < |f| ==> s[i] == f[i];
    assert s[|f|] == ' ';
    assert TokenLength(s) == |f|;
    assert s[..|f|] == f && s[|f| + 1..] == rest;
  }

  lemma ReadPrintedHeader(ts: string, host: string, app: string, procid: string, msgid: string, rest: string)
    requires IsToken(ts) && IsField(host) && IsField(app) && IsField(procid) && IsField(msgid)
    ensures ReadHeader(PrintHeader(ts, host, app, procid, msgid, rest)) ==
            Some(Header(ts, OrNil(host), OrNil(app), OrNil(procid), OrNil(msgid), rest))
  {
    hide Token, LastToken, AfterVersion, LooksLikeTimestamp;
    var r5 := OrNil(msgid) + ([' '] + rest);
    var r4 := OrNil(procid) + ([' '] + r5);
    var r3 := OrNil(app) + ([' '] + r4);
    var r2 := OrNil(host) + ([' '] + r3);
    var r1 := ts + ([' '] + r2);
    VersionOne(r1);
    ReadToken(ts, r2);
    ReadToken(OrNil(host), r3);
    ReadToken(OrNil(app), r4);
    ReadToken(OrNil(procid), r5);
    ReadToken(OrNil(msgid), rest);
  }

  lemma VersionOne(rest: string)
    ensures AfterVersion("1 " + rest) == Some(rest)
  {
    var s := "1 " + rest;
    assert s[0] == '1' && s[1] == ' ' && s[2..] == rest;
    assert DigitsLength(s[1..]) == 0;
  }

  lemma ReadPrintedPriority(n: nat, rest: string)
    requires n <= 999
    ensures Priority(['<'] + (Numeral(n) + (['>'] + rest))) == Some((n, rest))
  {
    hide Numeral, Value;
    ValueOfNumeral(n);
    ShortNumeral(n);
    var d := Numeral(n);
    var t := d + (['>'] + rest);
    var s := ['<'] + t;
    assert s[1..] == t && t[..|d|] == d && t[|d|] == '>' && s[|d| + 2..] == rest;
    DigitsLengthOf(d, ['>'] + rest);
  }

  /** Structured data, one space and the text, of which a leading byte order mark is dropped. */
  lemma ReadPrintedBody(es: seq<Element>, m: string)
    requires forall i :: 0 <= i < |es| ==> Printable(es[i])
    ensures ReadBody(PrintBody(es, m)) ==
            Parsed(if es == [] then "" else Print(es), if m != [] && m[0] == BOM then m[1..] else m, ElementMap(es))
  {
    hide Printable, Parse, Print, ElementMap, ReadBody, DropLead;
    var tail := if m == [] then [] else [' '] + m;
    var rest := PrintBody(es, m);
    TextBehindSpace(m);
    BodyParts(rest);
    if es == [] {
      assert rest == ['-'] + tail && rest[1..] == tail;
      EmptyMap();
    } else {
      ParseUndoesPrint(es, tail);
      PrintOpens(es, tail);
    }
  }

  lemma TextBehindSpace(m: string)
    ensures DropLead(if m == [] then [] else [' '] + m) == if m != [] && m[0] == BOM then m[1..] else m
  {
    if m != [] { assert ([' '] + m)[1..] == m; }
  }

  lemma EmptyMap()
    ensures ElementMap([]) == map[]
  {
  }

  lemma PrintOpens(es: seq<Element>, rest: string)
    requires es != []
    ensures Print(es) + rest != [] && (Print(es) + rest)[0] == '['
  {
    hide PrintParams;
  }

  lemma {:induction false} PrintCloses(es: seq<Element>)
    requires es != []
    ensures Print(es) != [] && Print(es)[|Print(es)| - 1] == ']'
  {
    hide PrintParams;
    var params, more := PrintParams(es[0].params), Print(es[1..]);
    assert Print(es) == ['['] + (es[0].id + (params + ([']'] + more)));
    if |es| <= 1 {
    } else {
      PrintCloses(es[1..]);
    }
  }

  // ----- stripping

  lemma {:induction false} StripLeftOf(pre: string, s: string, drop: char -> bool)
    requires forall i :: 0 <= i < |pre| ==> drop(pre[i])
    requires s != [] ==> !drop(s[0])
    ensures StripLeft(pre + s, drop) == s
  {
    if pre == [] {
      assert pre + s == s;
    } else {
      StripLeftOf(pre[1..], s, drop);
      assert (pre + s)[1..] == pre[1..] + s;
    }
  }

  lemma {:induction false} StripRightOf(s: string, post: string, drop: char -> bool)
    requires forall i :: 0 <= i < |post| ==> drop(post[i])
    requires s != [] ==> !drop(s[|s| - 1])
    ensures StripRight(s + post, drop) == s
  {
    if post == [] {
      assert s + post == s;
    } else {
      var n := |post| - 1;
      StripRightOf(s, post[..n], drop);
      assert (s + post)[..|s| + n] == s + post[..n];
    }
  }

  /** `str.strip` removes what is to be dropped from both ends, and nothing else. */
  lemma StripOf(pre: string, s: string, post: string, drop: char -> bool)
    requires forall i :: 0 <= i < |pre| ==> drop(pre[i])
    requires forall i :: 0 <= i < |post| ==> drop(post[i])
    requires s != [] && !drop(s[0]) && !drop(s[|s| - 1])
    ensures Strip(pre + s + post, drop) == s
  {
    assert pre + s + post == pre + (s + post);
    StripLeftOf(pre, s + post, drop);
    StripRightOf(s, post, drop);
  }

  /** What is at the end of `w` and to be dropped can be split off. */
  lemma {:induction false} DropEnd(w: string, drop: char -> bool) returns (n: nat)
    ensures n <= |w| && (forall i :: n <= i < |w| ==> drop(w[i])) && (n > 0 ==> !drop(w[n - 1]))
  {
    if w == [] || !drop(w[|w| - 1]) {
      n := |w|;
    } else {
      n := DropEnd(w[..|w| - 1], drop);
    }
  }

  // ----- a complete message

  /** What the receiver gets: a byte order mark and white space around the text, stray bytes around the whole. */
  datatype Wire = Wire(before: string, bom: bool, lead: string, text: string, trail: string, after: string)

  /** Text that white space or a byte order mark could be told apart from; without text there is nothing around it. */
  predicate IsWire(w: Wire) {
    && (forall i :: 0 <= i < |w.before| ==> IsFrameByte(w.before[i]))
    && (forall i :: 0 <= i < |w.after| ==> IsFrameByte(w.after[i]))
    && (forall i :: 0 <= i < |w.lead| ==> IsSpace(w.lead[i]))
    && (forall i :: 0 <= i < |w.trail| ==> IsSpace(w.trail[i]))
    && (if w.text == [] then !w.bom && w.lead == [] && w.trail == []
        else
          && !IsSpace(w.text[0]) && !IsSpace(w.text[|w.text| - 1]) && w.text[|w.text| - 1] != '\0'
          && (!w.bom && w.lead == [] ==> w.text[0] != BOM))
  }

  /** The text of the message up to its last character that is neither white space nor a stray byte. */
  function Body(w: Wire): string { (if w.bom then [BOM] else []) + (w.lead + w.text) }

  lemma PrintBodyMore(es: seq<Element>, m: string, more: string)
    requires m != []
    ensures PrintBody(es, m + more) == PrintBody(es, m) + more
  {
    hide Print;
    assert [' '] + (m + more) == ([' '] + m) + more;
  }

  lemma PrintHeaderMore(ts: string, host: string, app: string, procid: string, msgid: string, rest: string, more: string)
    ensures PrintHeader(ts, host, app, procid, msgid, rest + more) == PrintHeader(ts, host, app, procid, msgid, rest) + more
  {
    hide OrNil;
    var a, b, c, d := OrNil(host), OrNil(app), OrNil(procid), OrNil(msgid);
    assert PrintHeader(ts, host, app, procid, msgid, rest) ==
           "1 " + ts + [' '] + a + [' '] + b + [' '] + c + [' '] + d + [' '] + rest;
    assert PrintHeader(ts, host, app, procid, msgid, rest + more) ==
           "1 " + ts + [' '] + a + [' '] + b + [' '] + c + [' '] + d + [' '] + (rest + more);
  }

  lemma PrintMore(pri: nat, ts: string, host: string, app: string, procid: string, msgid: string, es: seq<Element>,
                  m: string, more: string)
    requires m != []
    ensures PrintMessage(pri, ts, host, app, procid, msgid, es, m + more) ==
            PrintMessage(pri, ts, host, app, procid, msgid, es, m) + more
  {
    hide PrintBody, PrintHeader, Numeral;
    PrintBodyMore(es, m, more);
    PrintHeaderMore(ts, host, app, procid, msgid, PrintBody(es, m), more);
    var h := PrintHeader(ts, host, app, procid, msgid, PrintBody(es, m));
    assert ['<'] + (Numeral(pri) + (['>'] + (h + more))) == (['<'] + (Numeral(pri) + (['>'] + h))) + more;
  }

  /** The end of the message itself is not a stray byte. */
  lemma PrintedEnds(pri: nat, ts: string, host: string, app: string, procid: string, msgid: string, es: seq<Element>,
                    w: Wire)
    requires IsWire(w)
    ensures var p := PrintMessage(pri, ts, host, app, procid, msgid, es, Body(w));
            p != [] && p[0] == '<' && !IsFrameByte(p[|p| - 1])
  {
    hide PrintHeader, Numeral, IsSpace, Print;
    var body := PrintBody(es, Body(w));
    BodyEnds(es, w);
    PrintHeaderMore(ts, host, app, procid, msgid, [], body);
    assert [] + body == body;
    var h := PrintHeader(ts, host, app, procid, msgid, []);
    assert PrintHeader(ts, host, app, procid, msgid, body) == h + body;
    var p := PrintMessage(pri, ts, host, app, procid, msgid, es, Body(w));
    assert p[|p| - 1] == body[|body| - 1];
  }

  lemma BodyEnds(es: seq<Element>, w: Wire)
    requires IsWire(w)
    ensures var b := PrintBody(es, Body(w));
            b != [] && !IsFrameByte(b[|b| - 1])
  {
    hide Print;
    var b := PrintBody(es, Body(w));
    if w.text != [] {
      assert Body(w)[|Body(w)| - 1] == w.text[|w.text| - 1];
      assert b[|b| - 1] == w.text[|w.text| - 1];
    } else if es != [] {
      PrintCloses(es);
      assert Body(w) == [];
    }
  }

  /** Behind the structured data: after the mark and the white space have gone, the text is left. */
  lemma TextOfBody(w: Wire, n: nat)
    requires IsWire(w) && n <= |w.trail|
    ensures var m := Body(w) + w.trail[..n];
            Strip(if m != [] && m[0] == BOM then m[1..] else m, IsSpace) == w.text
  {
    hide Strip;
    var m := Body(w) + w.trail[..n];
    var rest := if m != [] && m[0] == BOM then m[1..] else m;
    if w.text == [] {
      assert rest == [];
      NothingToStrip(IsSpace);
    } else {
      BomIsNoSpace();
      assert rest == w.lead + w.text + w.trail[..n];
      StripOf(w.lead, w.text, w.trail[..n], IsSpace);
    }
  }

  lemma BomIsNoSpace()
    ensures !IsSpace(BOM)
  {
  }

  lemma NothingToStrip(drop: char -> bool)
    ensures Strip([], drop) == []
  {
  }

  lemma StripWire(p: string, w: Wire) returns (n: nat)
    requires IsWire(w) && p != [] && p[0] == '<' && !IsFrameByte(p[|p| - 1])
    ensures n <= |w.trail| && Strip(w.before + (p + w.trail) + w.after, IsFrameByte) == p + w.trail[..n]
  {
    hide Strip, IsSpace;
    n := DropEnd(w.trail, IsFrameByte);
    var t, post := p + w.trail[..n], w.trail[n..] + w.after;
    StripOf(w.before, t, post, IsFrameByte);
    assert w.before + (p + w.trail) + w.after == w.before + t + post;
  }

  /** The device's own time when it is within a day of the receipt, else the time of receipt. */
  predicate TrustedTime(got: int, device: Option<int>, receivedAt: int) {
    && (device.Some? && -86400 <= device.value - receivedAt <= 86400 ==> got == device.value)
    && (device.None? || device.value - receivedAt < -86400 || device.value - receivedAt > 86400 ==> got == receivedAt)
  }

  lemma TrustMeaning(device: Option<int>, receivedAt: int)
    ensures TrustedTime(Trust(device, receivedAt), device, receivedAt)
  {
  }

  /** A priority of 0 to 191 is facility and severity; a greater one is dropped. */
  predicate PriorityFields(pri: nat, facility: Option<nat>, severity: Option<nat>) {
    if pri <= 191 then
      facility.Some? && severity.Some? && severity.value < 8 && 8 * facility.value + severity.value == pri
    else facility == None && severity == None
  }

  /**
    A complete RFC 5424 message parses back to what was printed: priority, time, NILVALUE-able header fields,
    structured data and text, without the byte order mark, white space and stray bytes around them. A message
    with another token in place of the timestamp goes to the BSD branch.
   */
  lemma ReadUndoesPrint(pri: nat, ts: string, host: string, app: string, procid: string, msgid: string,
                        es: seq<Element>, w: Wire, sourceIp: string, receivedAt: int, iso: string -> Option<int>)
    requires pri <= 999 && IsToken(ts) && IsField(host) && IsField(app) && IsField(procid) && IsField(msgid)
    requires (forall i :: 0 <= i < |es| ==> Printable(es[i])) && IsWire(w)
    ensures var data := w.before + PrintMessage(pri, ts, host, app, procid, msgid, es, Body(w) + w.trail) + w.after;
            var r := Read(data, sourceIp, receivedAt, iso);
            && (r.Some? <==> IsTimestamp(ts))
            && (r.Some? ==>
                  && PriorityFields(pri, r.value.facility, r.value.severity)
                  && TrustedTime(r.value.ts, if ts == "-" then None else iso(ts), receivedAt)
                  && r.value.host == (if host == "" then sourceIp else host)
                  && r.value.app == app && r.value.procid == procid && r.value.msgid == msgid
                  && r.value.structured == (if es == [] then "" else Print(es)) && r.value.sd == ElementMap(es)
                  && r.value.message == w.text)
  {
    hide *;
    var p := PrintMessage(pri, ts, host, app, procid, msgid, es, Body(w));
    PrintedEnds(pri, ts, host, app, procid, msgid, es, w);
    var n := StripWire(p, w);
    var m := Body(w) + w.trail[..n];
    MoreText(pri, ts, host, app, procid, msgid, es, w, |w.trail|);
    assert w.trail[..|w.trail|] == w.trail;
    MoreText(pri, ts, host, app, procid, msgid, es, w, n);
    var body := PrintBody(es, m);
    var header := PrintHeader(ts, host, app, procid, msgid, body);
    ReadPrintedPriority(pri, header);
    PrintIs(pri, ts, host, app, procid, msgid, es, m);
    ReadPrintedHeader(ts, host, app, procid, msgid, body);
    ReadPrintedBody(es, m);
    TextOfBody(w, n);
    FieldsAreNotNil(host, app, procid, msgid);
    TimestampMeaning(ts);
    TrustMeaning(if ts == "-" then None else iso(ts), receivedAt);
    var data := w.before + PrintMessage(pri, ts, host, app, procid, msgid, es, Body(w) + w.trail) + w.after;
    ReadParts(data, PrintMessage(pri, ts, host, app, procid, msgid, es, m), pri, header,
              Header(ts, OrNil(host), OrNil(app), OrNil(procid), OrNil(msgid), body), sourceIp, receivedAt, iso);
    SplitPriority(pri);
  }

  lemma SplitPriority(pri: nat)
    ensures if pri <= 191 then PriorityFields(pri, Some(pri / 8), Some(pri % 8)) else PriorityFields(pri, None, None)
  {
  }

  lemma PrintIs(pri: nat, ts: string, host: string, app: string, procid: string, msgid: string, es: seq<Element>, m: string)
    ensures PrintMessage(pri, ts, host, app, procid, msgid, es, m) ==
            ['<'] + (Numeral(pri) + (['>'] + PrintHeader(ts, host, app, procid, msgid, PrintBody(es, m))))
  {
  }

  lemma MoreText(pri: nat, ts: string, host: string, app: string, procid: string, msgid: string, es: seq<Element>,
                 w: Wire, n: nat)
    requires IsWire(w) && n <= |w.trail|
    ensures PrintMessage(pri, ts, host, app, procid, msgid, es, Body(w) + w.trail[..n]) ==
            PrintMessage(pri, ts, host, app, procid, msgid, es, Body(w)) + w.trail[..n]
  {
    hide PrintMessage, IsSpace;
    if w.text == [] {
      assert w.trail[..n] == [] && Body(w) + [] == Body(w);
    } else {
      PrintMore(pri, ts, host, app, procid, msgid, es, Body(w), w.trail[..n]);
    }
  }

  lemma FieldsAreNotNil(host: string, app: string, procid: string, msgid: string)
    requires IsField(host) && IsField(app) && IsField(procid) && IsField(msgid)
    ensures Nil(OrNil(host)) == host && Nil(OrNil(app)) == app && Nil(OrNil(procid)) == procid && Nil(OrNil(msgid)) == msgid
  {
  }

  /** `Read` from the results of its parts. */
  lemma ReadParts(data: string, text: string, pri: nat, rest: string, h: Header,
                  sourceIp: string, receivedAt: int, iso: string -> Option<int>)
    requires Strip(data, IsFrameByte) == text && Priority(text) == Some((pri, rest)) && ReadHeader(rest) == Some(h)
    ensures Read(data, sourceIp, receivedAt, iso) ==
            if !LooksLikeTimestamp(h.ts) then None
            else Some(Fields(Trust(if h.ts == "-" then None else iso(h.ts), receivedAt),
                             if pri <= 191 then Some(pri / 8) else None, if pri <= 191 then Some(pri % 8) else None,
                             if Nil(h.host) == "" then sourceIp else Nil(h.host), Nil(h.app), Nil(h.procid), Nil(h.msgid),
                             ReadBody(h.rest).raw, ReadBody(h.rest).sd, Strip(ReadBody(h.rest).remainder, IsSpace)))
  {
    hide ReadHeader, ReadBody, Priority, LooksLikeTimestamp, Trust, Strip, IsSpace, IsFrameByte, Nil;
  }

  /** The version is a number from 1 to 999 followed by one space. */
  lemma ReadVersion(v: nat, rest: string)
    requires 1 <= v <= 999
    ensures AfterVersion(Numeral(v) + ([' '] + rest)) == Some(rest)
  {
    ValueOfNumeral(v);
    ShortNumeral(v);
    hide Numeral, Value, DigitsLength;
    var d := Numeral(v);
    DigitsLengthOf(d, [' '] + rest);
    var s := d + ([' '] + rest);
    assert s[|d| + 1..] == rest && s[0] == d[0];
  }

  /** Text without a version, or with a leading zero in it, has no header. */
  lemma NoHeader(text: string)
    requires text == [] || text[0] < '1' || text[0] > '9'
    ensures ReadHeader(text) == None
  {
    hide Token, LastToken;
  }

  /** A header may end with its last token. */
  lemma HeaderAlone(ts: string, host: string, app: string, procid: string, msgid: string)
    requires IsToken(ts) && IsToken(host) && IsToken(app) && IsToken(procid) && IsToken(msgid)
    ensures ReadHeader("1 " + (ts + ([' '] + (host + ([' '] + (app + ([' '] + (procid + ([' '] + msgid))))))))) ==
            Some(Header(ts, host, app, procid, msgid, ""))
  {
    hide Token, LastToken, AfterVersion, IsSpace;
    var r4 := procid + ([' '] + msgid);
    var r3 := app + ([' '] + r4);
    var r2 := host + ([' '] + r3);
    VersionOne(ts + ([' '] + r2));
    ReadToken(ts, r2);
    ReadToken(host, r3);
    ReadToken(app, r4);
    ReadToken(procid, msgid);
    TokenAlone(msgid);
  }

  lemma TokenAlone(t: string)
    requires IsToken(t)
    ensures LastToken(t) == Some((t, ""))
  {
    assert TokenLength(t) == |t|;
    assert t[..|t|] == t && t[|t|..] == "";
  }

  /** A priority has one to three digits. */
  lemma LongPriority(d: string, rest: string)
    requires AllDigits(d) && (|d| == 0 || |d| >= 4) && rest != [] && !IsDigit(rest[0])
    ensures Priority(['<'] + (d + rest)) == None
  {
    DigitsLengthOf(d, rest);
    assert (['<'] + (d + rest))[1..] == d + rest;
  }

  /** Without a priority in front a message is a user notice. */
  lemma NoPriority(text: string)
    ensures text == [] || text[0] != '<' ==> ReadPriority(text) == (Some(1), Some(5), text)
  {
  }

  /** What a printed message looks like. */
  lemma PrintedExample()
    ensures PrintMessage(165, "-", "h", "", "p", "", [Element("x", [Param("k", "]")])], "t") ==
            "<165>1 - h - p - [x k=\"\\]\"] t"
  {
    var es := [Element("x", [Param("k", "]")])];
    NumeralExample();
    ElementExample();
    hide Print, Numeral, PrintHeader;
    var body := "[x k=\"\\]\"] t";
    assert PrintBody(es, "t") == body;
    hide PrintBody;
    HeaderExample(body);
    assert "<165>" + ("1 - h - p - " + body) == "<165>1 - h - p - [x k=\"\\]\"] t";
    assert ['<'] + ("165" + (['>'] + ("1 - h - p - " + body))) == "<165>" + ("1 - h - p - " + body);
  }

  lemma HeaderExample(rest: string)
    ensures PrintHeader("-", "h", "", "p", "", rest) == "1 - h - p - " + rest
  {
  }

  lemma NumeralExample()
    ensures Numeral(165) == "165"
  {
    assert Numeral(1) == "1" && Numeral(16) == "16";
  }

  lemma ElementExample()
    ensures Print([Element("x", [Param("k", "]")])]) == "[x k=\"\\]\"]"
  {
    hide Escape;
    PrintEscape(']', []);
    EscapeNothing();
    var ps := [Param("k", "]")];
    assert [']'] + [] == "]";
    assert PrintParams(ps) == " k=\"\\]\"" by { assert ps[1..] == []; }
    hide PrintParams;
    var es := [Element("x", ps)];
    assert es[1..] == [];
  }

  lemma EscapeNothing()
    ensures Escape([]) == []
  {
  }
}
