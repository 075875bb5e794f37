/**
  Splitting a TCP syslog stream into messages: octet counting and delimiters,
  section 3.4 of RFC 6587.

  A byte string is modelled as a string whose characters are the byte values.
 */
module SyslogFraming {
  import opened Decimal

  predicate IsStray(c: char) { c == '\n' || c == '\r' || c == '\0' || c == ' ' }

  predicate IsDelimiter(c: char) { c == '\n' || c == '\0' }

  function SkipStrays(b: string): (r: string)
    ensures |r| <= |b|
    ensures r != [] ==> !IsStray(r[0])
  {
    if b != [] && IsStray(b[0]) then SkipStrays(b[1..]) else b
  }

  /** `bytes.find`: the first position of `c`, or -1. */
  function Find(b: string, c: char): (r: int)
    ensures -1 <= r < |b|
    ensures r >= 0 ==> b[r] == c
    ensures forall k :: 0 <= k < (if r >= 0 then r else |b|) ==> b[k] != c
  {
    if b == [] then -1
    else if b[0] == c then 0
    else
      var r := Find(b[1..], c);
      if r == -1 then -1 else r + 1
  }

  function FirstDelimiter(b: string): (r: int)
    ensures -1 <= r < |b|
    ensures r >= 0 ==> IsDelimiter(b[r])
    ensures forall k :: 0 <= k < (if r >= 0 then r else |b|) ==> !IsDelimiter(b[k])
  {
    if b == [] then -1
    else if IsDelimiter(b[0]) then 0
    else
      var r := FirstDelimiter(b[1..]);
      if r == -1 then -1 else r + 1
  }

  /** `rstrip(b"\r")`. */
  function TrimCR(b: string): string {
    if b != [] && b[|b| - 1] == '\r' then TrimCR(b[..|b| - 1]) else b
  }

  /** The first `n` bytes. */
  function Prefix(b: string, n: nat): (r: string)
    ensures |r| <= |b|
  {
    if |b| < n then b else b[..n]
  }

  /** The buffer starts with an octet count of `s` digits, a space and the `<` of a message. */
  predicate HasCount(b: string, s: int) {
    && 0 < s
    && s + 1 < |b|
    && AllDigits(b[..s])
    && b[s + 1] == '<'
  }

  datatype Cut = Wait | Frame(frame: string, consumed: nat)

  /** What the front of a buffer without leading strays yields. */
  function NextCut(b: string): (r: Cut)
    requires b != [] && !IsStray(b[0])
    ensures r.Frame? ==> 0 < r.consumed <= |b|
  {
    var space := Find(Prefix(b, 12), ' ');
    if HasCount(b, space) then
      var end := space + 1 + Value(b[..space]);
      if |b| < end then Wait else Frame(b[space + 1..end], end)
    else
      var d := FirstDelimiter(b);
      if d == -1 then Wait else Frame(TrimCR(b[..d]), d + 1)
  }

  /** All complete messages of a buffer and what is left of it. */
  function Split(b: string): (r: (seq<string>, string))
    ensures |r.1| <= |b|
    decreases |b|
  {
    var s := SkipStrays(b);
    if s == [] then ([], [])
    else
      match NextCut(s)
      case Wait => ([], s)
      case Frame(f, n) =>
        var r := Split(s[n..]);
        ([f] + r.0, r.1)
  }

  lemma SplitNothing()
    ensures Split([]) == ([], [])
  {
  }

  lemma SplitSkips(b: string, c: string)
    requires SkipStrays(b) == SkipStrays(c)
    ensures Split(b) == Split(c)
  {
    hide NextCut;
  }

  lemma SplitFrame(b: string)
    requires b != [] && !IsStray(b[0])
    ensures NextCut(b).Wait? ==> Split(b) == ([], b)
    ensures NextCut(b).Frame? ==>
              var rest := Split(b[NextCut(b).consumed..]);
              Split(b) == ([NextCut(b).frame] + rest.0, rest.1)
  {
    hide NextCut;
  }

  /** The stream buffer of one connection. */
  class StreamBuffer {
    var data: string

    constructor ()
      ensures data == ""
    {
      data := "";
    }

    /** The inner loop: deletes stray delimiters at the front. */
    method DropStrays()
      modifies this
      ensures data == SkipStrays(old(data))
    {
      while data != [] && IsStray(data[0])
        invariant SkipStrays(old(data)) == SkipStrays(data)
      {
        data := data[1..];
      }
    }

    /** One round of the outer loop: removes one complete frame, or leaves the buffer alone. */
    method TakeFrame() returns (r: Cut)
      requires data != [] && !IsStray(data[0])
      modifies this
      ensures r == NextCut(old(data))
      ensures data == if r.Wait? then old(data) else old(data)[r.consumed..]
    {
      hide TrimCR, Find, FirstDelimiter, Value, IsStray, IsDelimiter;
      NoCount(data);
      if IsDigit(data[0]) {
        var space := Find(Prefix(data, 12), ' ');
        if space > 0 && AllDigits(data[..space]) && space + 1 < |data| && data[space + 1] == '<' {
          var end := space + 1 + Value(data[..space]);
          if |data| < end {
            return Wait;
          }
          r := Frame(data[space + 1..end], end);
          data := data[end..];
          return;
        }
      }
      var newline := -1;
      var pos := Find(data, '\n');
      if pos != -1 {
        newline := pos;
      }
      pos := Find(data, '\0');
      if pos != -1 && (newline == -1 || pos < newline) {
        newline := pos;
      }
      EarlierDelimiter(data, newline);
      if newline == -1 {
        return Wait;
      }
      r := Frame(TrimCR(data[..newline]), newline + 1);
      data := data[newline + 1..];
    }

    /** `split_octet_counted`: removes the complete frames from the buffer. */
    method SplitOctetCounted() returns (frames: seq<string>)
      modifies this
      ensures (frames, data) == Split(old(data))
    {
      hide Split, SkipStrays, NextCut;
      frames := [];
      assert [] + Split(data).0 == Split(data).0;
      while data != []
        invariant Split(old(data)) == (frames + Split(data).0, Split(data).1)
        decreases |data|
      {
        SkipStraysTwice(data);
        DropStrays();
        if data == [] {
          break;
        }
        SplitBehind(data, frames);
        var r := TakeFrame();
        if r.Wait? {
          return;
        }
        frames := frames + [r.frame];
      }
      SplitNothing();
      assert frames + [] == frames;
    }
  }

  lemma SplitBehind(b: string, frames: seq<string>)
    requires b != [] && !IsStray(b[0])
    ensures NextCut(b).Wait? ==> frames + Split(b).0 == frames && Split(b).1 == b
    ensures NextCut(b).Frame? ==>
              var rest := Split(b[NextCut(b).consumed..]);
              frames + Split(b).0 == (frames + [NextCut(b).frame]) + rest.0 && Split(b).1 == rest.1
  {
    hide NextCut, Split;
    SplitFrame(b);
  }

  /** Looking at the first byte before the count is only a shortcut. */
  lemma NoCount(b: string)
    requires b != []
    ensures !IsDigit(b[0]) ==> !HasCount(b, Find(Prefix(b, 12), ' '))
  {
    var s := Find(Prefix(b, 12), ' ');
    if HasCount(b, s) { assert IsDigit(b[..s][0]); }
  }

  /** The earlier of the first newline and the first NUL is the first delimiter. */
  lemma EarlierDelimiter(b: string, newline: int)
    requires var p, q := Find(b, '\n'), Find(b, '\0');
             newline == if p == -1 then q else if q == -1 || p <= q then p else q
    ensures newline == FirstDelimiter(b)
  {
    hide Find, FirstDelimiter;
    var d := FirstDelimiter(b);
    if newline >= 0 { assert IsDelimiter(b[newline]); }
    if d >= 0 { assert IsDelimiter(b[d]); }
  }

  // ----- independence of the cuts

  lemma {:induction false} SkipStraysConcat(a: string, b: string)
    ensures SkipStrays(a + b) == if SkipStrays(a) == [] then SkipStrays(b) else SkipStrays(a) + b
  {
    if a == [] {
      assert a + b == b;
    } else if IsStray(a[0]) {
      SkipStraysConcat(a[1..], b);
      assert (a + b)[1..] == a[1..] + b;
    }
  }

  lemma SkipStraysTwice(b: string)
    ensures SkipStrays(SkipStrays(b)) == SkipStrays(b)
    ensures Split(SkipStrays(b)) == Split(b)
  {
    SplitSkips(SkipStrays(b), b);
  }

  /** A counted header that is found in a buffer is found, at the same place, in every extension of it. */
  lemma CountStable(b: string, c: string)
    requires b != [] && !IsStray(b[0])
    ensures var s := Find(Prefix(b, 12), ' ');
            var t := Find(Prefix(b + c, 12), ' ');
            && (HasCount(b, s) ==> s == t && HasCount(b + c, t) && (b + c)[..t] == b[..s])
            && (HasCount(b + c, t) && t + 1 < |b| ==> HasCount(b, s))
  {
    hide Find;
    var s, t := Find(Prefix(b, 12), ' '), Find(Prefix(b + c, 12), ' ');
    assert Prefix(b, 12) <= Prefix(b + c, 12);
    if s >= 0 {
      assert Prefix(b + c, 12)[s] == ' ';
      assert s == t;
    }
    if 0 <= t < |b| {
      assert Prefix(b, 12)[t] == ' ';
      assert s == t;
    }
    if s == t && 0 < s && s + 1 < |b| {
      assert (b + c)[..t] == b[..s];
    }
  }

  /** A count that appears when bytes are added needs a header that reaches beyond every delimiter seen so far. */
  lemma CountNotBehindDelimiter(b: string, c: string)
    requires FirstDelimiter(b) != -1
    ensures var t := Find(Prefix(b + c, 12), ' ');
            HasCount(b + c, t) ==> t + 1 < |b|
  {
    hide Find, FirstDelimiter;
    var t, d := Find(Prefix(b + c, 12), ' '), FirstDelimiter(b);
    if HasCount(b + c, t) {
      assert (b + c)[d] == b[d];
      assert Prefix(b + c, 12)[t] == (b + c)[t];
      assert d < t ==> IsDigit((b + c)[..t][d]);
      assert d != t + 1;
    }
  }

  lemma FirstDelimiterStable(b: string, c: string)
    requires FirstDelimiter(b) != -1
    ensures FirstDelimiter(b + c) == FirstDelimiter(b)
  {
    var d, e := FirstDelimiter(b), FirstDelimiter(b + c);
    assert (b + c)[d] == b[d];
    if 0 <= e < |b| { assert (b + c)[e] == b[e]; }
  }

  /** More bytes never change a message that is already complete. */
  lemma CompleteFrameStable(b: string, c: string)
    requires b != [] && !IsStray(b[0]) && NextCut(b).Frame?
    ensures NextCut(b + c) == NextCut(b)
  {
    hide HasCount, Find, FirstDelimiter, TrimCR, Value;
    var s := Find(Prefix(b, 12), ' ');
    CountStable(b, c);
    if HasCount(b, s) {
      HasCountBounds(b, s);
      var end := s + 1 + Value(b[..s]);
      assert (b + c)[s + 1..end] == b[s + 1..end];
    } else {
      var d := FirstDelimiter(b);
      FirstDelimiterStable(b, c);
      CountNotBehindDelimiter(b, c);
      assert (b + c)[..d] == b[..d];
    }
  }

  lemma HasCountBounds(b: string, s: int)
    requires HasCount(b, s)
    ensures 0 < s && s + 1 < |b| && AllDigits(b[..s])
  {
  }

  /**
    Splitting does not depend on how the bytes arrive: splitting `a`, appending `b` to what is
    left and splitting again gives the same messages and the same rest as splitting `a + b`.
   */
  lemma {:induction false} SplitInPieces(a: string, b: string)
    ensures var first := Split(a);
            var second := Split(first.1 + b);
            Split(a + b) == (first.0 + second.0, second.1)
    decreases |a|
  {
    hide NextCut, SkipStrays, Split, IsStray;
    var s := SkipStrays(a);
    SkipStraysConcat(a, b);
    if s == [] {
      SkipStraysTwice(a);
      SplitNothing();
      SplitSkips(a + b, b);
      assert [] + b == b && [] + Split(b).0 == Split(b).0;
    } else {
      SkipStraysTwice(a);
      SkipStraysConcat(s, b);
      SplitSkips(a + b, s + b);
      SplitFrame(s);
      SplitFrame(s + b);
      match NextCut(s)
      case Wait =>
        assert [] + Split(s + b).0 == Split(s + b).0;
      case Frame(f, n) =>
        CompleteFrameStable(s, b);
        assert (s + b)[n..] == s[n..] + b;
        SplitInPieces(s[n..], b);
        var r, q := Split(s[n..]), Split(Split(s[n..]).1 + b);
        assert [f] + (r.0 + q.0) == ([f] + r.0) + q.0;
    }
  }

  // ----- framing a list of messages

  /** A message as a sender frames it; `padding` is stray bytes before it, `crs` carriage returns after it. */
  datatype Item =
    | Counted(padding: string, msg: string)
    | Delimited(padding: string, msg: string, crs: nat, delimiter: char)

  /** Up to eleven digits, a space and a `<`: what the receiver takes for an octet count. */
  ghost predicate LooksCounted(msg: string) {
    exists s :: CountEndsAt(msg, s)
  }

  predicate CountEndsAt(msg: string, s: int) {
    && 0 < s < 12 && s + 1 < |msg|
    && (forall i :: 0 <= i < s ==> '0' <= msg[i] <= '9')
    && msg[s] == ' ' && msg[s + 1] == '<'
  }

  /** A message as it may stand before a delimiter. It may start with digits, as long as they do not look like a count. */
  ghost predicate IsLine(msg: string) {
    && msg != [] && msg[0] != '\n' && msg[0] != '\r' && msg[0] != '\0' && msg[0] != ' '
    && '\n' !in msg && '\0' !in msg && msg[|msg| - 1] != '\r'
    && !LooksCounted(msg)
  }

  /** Stray bytes before the message are newlines, carriage returns, NULs and spaces; a line ends with newline or NUL. */
  ghost predicate WellFormed(item: Item) {
    && (forall i :: 0 <= i < |item.padding| ==>
          item.padding[i] == '\n' || item.padding[i] == '\r' || item.padding[i] == '\0' || item.padding[i] == ' ')
    && match item {
         case Counted(_, msg) => msg != [] && msg[0] == '<' && |Numeral(|msg|)| <= 11
         case Delimited(_, msg, _, delimiter) => (delimiter == '\n' || delimiter == '\0') && IsLine(msg)
       }
  }

  function CarriageReturns(n: nat): (r: string)
    ensures |r| == n && forall i :: 0 <= i < n ==> r[i] == '\r'
  {
    seq(n, i => '\r')
  }

  /** The bytes of an item behind its padding. */
  function Payload(item: Item): string {
    match item
    case Counted(_, msg) => Numeral(|msg|) + " " + msg
    case Delimited(_, msg, crs, delimiter) => msg + CarriageReturns(crs) + [delimiter]
  }

  function Encode(item: Item): string {
    item.padding + Payload(item)
  }

  function EncodeAll(items: seq<Item>): string {
    if items == [] then [] else Encode(items[0]) + EncodeAll(items[1..])
  }

  function Messages(items: seq<Item>): seq<string> {
    if items == [] then [] else [items[0].msg] + Messages(items[1..])
  }

  lemma {:induction false} SkipPadding(padding: string, b: string)
    requires forall i :: 0 <= i < |padding| ==> IsStray(padding[i])
    requires b != [] && !IsStray(b[0])
    ensures SkipStrays(padding + b) == b
  {
    if padding == [] {
      assert padding + b == b;
    } else {
      SkipPadding(padding[1..], b);
      assert (padding + b)[1..] == padding[1..] + b;
    }
  }

  lemma {:induction false} TrimCarriageReturns(msg: string, crs: nat)
    requires msg != [] && msg[|msg| - 1] != '\r'
    ensures TrimCR(msg + CarriageReturns(crs)) == msg
  {
    if crs == 0 {
      assert msg + CarriageReturns(0) == msg;
    } else {
      TrimCarriageReturns(msg, crs - 1);
      var all := msg + CarriageReturns(crs);
      assert all[..|all| - 1] == msg + CarriageReturns(crs - 1);
    }
  }

  /** The part of an encoded item after its padding yields the message and nothing more. */
  lemma CutCounted(msg: string)
    requires msg != [] && msg[0] == '<' && |Numeral(|msg|)| <= 11
    ensures var b := Numeral(|msg|) + " " + msg;
            !IsStray(b[0]) && NextCut(b) == Frame(msg, |b|)
  {
    hide Numeral, Value, Find, FirstDelimiter, TrimCR, Prefix;
    var digits, s := Numeral(|msg|), |Numeral(|msg|)|;
    ValueOfNumeral(|msg|);
    var b := digits + " " + msg;
    assert b[..s] == digits && b[s + 1] == '<' && b[s + 1..] == msg;
    forall k | 0 <= k < s ensures b[k] != ' ' {
      assert b[k] == digits[k] && IsDigit(digits[k]);
    }
    FindInPrefix(b, s);
    assert b[0] == digits[0] && IsDigit(digits[0]);
  }

  lemma FindInPrefix(b: string, s: int)
    requires 0 <= s < |b| && s < 12 && b[s] == ' '
    requires forall k :: 0 <= k < s ==> b[k] != ' '
    ensures Find(Prefix(b, 12), ' ') == s
  {
    hide Find;
    var p := Prefix(b, 12);
    assert p[s] == ' ';
    assert forall k :: 0 <= k < s ==> p[k] == b[k];
  }

  lemma CutDelimited(msg: string, crs: nat, delimiter: char)
    requires IsLine(msg) && IsDelimiter(delimiter)
    ensures var b := msg + CarriageReturns(crs) + [delimiter];
            !IsStray(b[0]) && NextCut(b) == Frame(msg, |b|)
  {
    hide Find, TrimCR, LooksCounted, FirstDelimiter;
    var body := msg + CarriageReturns(crs);
    var b := body + [delimiter];
    assert b[0] == msg[0];
    if HasCount(b, Find(Prefix(b, 12), ' ')) {
      CountInLine(msg, crs, delimiter);
    }
    assert FirstDelimiter(b) == |body| by {
      assert forall k :: 0 <= k < |body| ==> !IsDelimiter(b[k]);
      assert IsDelimiter(b[|body|]);
    }
    assert b[..|body|] == body;
    TrimCarriageReturns(msg, crs);
  }

  lemma CountInLine(msg: string, crs: nat, delimiter: char)
    requires IsDelimiter(delimiter)
    requires var b := msg + CarriageReturns(crs) + [delimiter];
             HasCount(b, Find(Prefix(b, 12), ' '))
    ensures LooksCounted(msg)
  {
    hide Find;
    var b := msg + CarriageReturns(crs) + [delimiter];
    var s := Find(Prefix(b, 12), ' ');
    assert forall k :: |msg| <= k < |b| ==> b[k] == '\r' || b[k] == delimiter;
    assert Prefix(b, 12)[s] == b[s];
    forall i | 0 <= i < s ensures '0' <= msg[i] <= '9' {
      assert b[..s][i] == msg[i] && IsDigit(b[..s][i]);
    }
    assert CountEndsAt(msg, s);
  }

  lemma CutPayload(item: Item)
    requires WellFormed(item)
    ensures var b := Payload(item);
            b != [] && !IsStray(b[0]) && NextCut(b) == Frame(item.msg, |b|) && Encode(item) == item.padding + b
  {
    match item
    case Counted(_, msg) => CutCounted(msg);
    case Delimited(_, msg, crs, delimiter) => CutDelimited(msg, crs, delimiter);
  }

  lemma SplitItem(item: Item, rest: string)
    requires WellFormed(item)
    ensures Split(Encode(item) + rest) == ([item.msg] + Split(rest).0, Split(rest).1)
  {
    hide NextCut, SkipStrays, Encode, Payload;
    var b := Payload(item);
    CutPayload(item);
    assert Encode(item) + rest == item.padding + (b + rest);
    SkipPadding(item.padding, b + rest);
    CompleteFrameStable(b, rest);
    assert (b + rest)[|b|..] == rest;
  }

  /** Any mix of counted and delimited messages is recovered in order, and nothing is left over. */
  lemma {:induction false} FramingRoundTrip(items: seq<Item>)
    requires forall i :: 0 <= i < |items| ==> WellFormed(items[i])
    ensures Split(EncodeAll(items)) == (Messages(items), [])
  {
    hide Split, Encode;
    if items == [] {
      SplitNothing();
    } else {
      FramingRoundTrip(items[1..]);
      SplitItem(items[0], EncodeAll(items[1..]));
    }
  }
}
