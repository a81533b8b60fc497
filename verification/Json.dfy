/**
 JsonEscape and ParseLlmResponse on bytes, against the string grammar of section 7 of
 RFC 8259. Bytes from 0x80 on are parts of UTF-8 sequences and stand for themselves.
 */
module Json {
  import opened Bytes

  const QUOTE: byte := 0x22
  const BACKSLASH: byte := 0x5c

  // ---------------------------------------------------------------------
  // JsonEscape
  // ---------------------------------------------------------------------

  function HexDigit(d: int): (h: byte)
    requires 0 <= d < 16
  {
    if d < 10 then 0x30 + d else 0x61 + (d - 10)
  }

  function EscapeByte(c: byte): (s: Buffer)
    ensures 1 <= |s| <= 6
  {
    if c == QUOTE then [BACKSLASH, QUOTE]
    else if c == BACKSLASH then [BACKSLASH, BACKSLASH]
    else if c == 0x0a then [BACKSLASH, 0x6e]
    else if c == 0x0d then [BACKSLASH, 0x72]
    else if c == 0x09 then [BACKSLASH, 0x74]
    else if c < 0x20 then [BACKSLASH, 0x75, 0x30, 0x30, HexDigit(c / 16), HexDigit(c % 16)]
    else [c]
  }

  function Escape(s: Buffer): (r: Buffer)
    ensures |s| <= |r| <= 6 * |s|
  {
    if s == [] then [] else EscapeByte(s[0]) + Escape(s[1..])
  }

  /** The escapes in figures. */
  lemma EscapeTable(c: byte)
    ensures c == 0x22 ==> Escape([c]) == [0x5c, 0x22]
    ensures c == 0x5c ==> Escape([c]) == [0x5c, 0x5c]
    ensures c == 0x0a ==> Escape([c]) == [0x5c, 0x6e]
    ensures c == 0x0d ==> Escape([c]) == [0x5c, 0x72]
    ensures c == 0x09 ==> Escape([c]) == [0x5c, 0x74]
    ensures c < 0x20 && c != 0x0a && c != 0x0d && c != 0x09 ==>
              exists hi: byte, lo: byte :: Escape([c]) == [0x5c, 0x75, 0x30, 0x30, hi, lo]
                && hi as int == 0x30 + c as int / 16
                && lo as int == (if c % 16 < 10 then 0x30 else 0x57) + c as int % 16
    ensures c >= 0x20 && c != 0x22 && c != 0x5c ==> Escape([c]) == [c]
  {
    var none: Buffer := [];
    assert [c][1..] == none && EscapeByte(c) + none == EscapeByte(c);
    if c < 0x20 && c != 0x0a && c != 0x0d && c != 0x09 {
      var hi, lo := HexDigit(c / 16), HexDigit(c % 16);
      assert Escape([c]) == [0x5c, 0x75, 0x30, 0x30, hi, lo];
    }
  }

  /** Bytes are escaped one after the other. */
  lemma {:induction false} EscapeAppend(s: Buffer, more: Buffer)
    ensures Escape(s + more) == Escape(s) + Escape(more)
  {
    if s == [] {
      assert s + more == more;
    } else {
      AppendTail(s, more);
      EscapeAppend(s[1..], more);
      Assoc(EscapeByte(s[0]), Escape(s[1..]), Escape(more));
    }
  }

  method JsonEscape(s: Buffer) returns (r: Buffer)
    ensures r == Escape(s)
  {
    r := [];
    for i := 0 to |s|
      invariant r + Escape(s[i..]) == Escape(s)
    {
      var c := s[i];
      RestAt(s, i);
      Assoc(r, EscapeByte(c), Escape(s[i + 1..]));
      if c == QUOTE {
        r := r + [BACKSLASH, QUOTE];
      } else if c == BACKSLASH {
        r := r + [BACKSLASH, BACKSLASH];
      } else if c == 0x0a {
        r := r + [BACKSLASH, 0x6e];
      } else if c == 0x0d {
        r := r + [BACKSLASH, 0x72];
      } else if c == 0x09 {
        r := r + [BACKSLASH, 0x74];
      } else if c < 0x20 {
        r := r + [BACKSLASH, 0x75, 0x30, 0x30, HexDigit(c / 16), HexDigit(c % 16)];
      } else {
        r := r + [c];
      }
    }
  }

  // ---------------------------------------------------------------------
  // A reference reader of JSON strings
  // ---------------------------------------------------------------------

  function HexValue(h: byte): Option<nat> {
    if 0x30 <= h <= 0x39 then Some(h - 0x30)
    else if 0x41 <= h <= 0x46 then Some(h - 0x41 + 10)
    else if 0x61 <= h <= 0x66 then Some(h - 0x61 + 10)
    else None
  }

  /** The value of four hexadecimal digits. */
  function Hex4(t: Buffer): Option<nat>
    requires |t| >= 4
  {
    match (HexValue(t[0]), HexValue(t[1]), HexValue(t[2]), HexValue(t[3]))
    case (Some(a), Some(b), Some(c), Some(d)) => Some(4096 * a + 256 * b + 16 * c + d)
    case _ => None
  }

  function Utf8(cp: nat): Buffer
    requires cp < 0x11_0000
  {
    if cp < 0x80 then [cp]
    else if cp < 0x800 then [0xc0 + cp / 64, 0x80 + cp % 64]
    else if cp < 0x1_0000 then [0xe0 + cp / 4096, 0x80 + cp / 64 % 64, 0x80 + cp % 64]
    else [0xf0 + cp / 262144, 0x80 + cp / 4096 % 64, 0x80 + cp / 64 % 64, 0x80 + cp % 64]
  }

  /** One char of the grammar: the bytes it stands for, and what follows it. */
  datatype Char = Char(bytes: Buffer, rest: Buffer)

  function ReadEscape(t: Buffer): (r: Option<Char>)
    ensures r.Some? ==> |r.value.rest| < |t|
  {
    if t == [] then None
    else
      var c, u := t[0], t[1..];
      if c == QUOTE || c == BACKSLASH || c == 0x2f then Some(Char([c], u))
      else if c == 0x62 then Some(Char([0x08], u))
      else if c == 0x66 then Some(Char([0x0c], u))
      else if c == 0x6e then Some(Char([0x0a], u))
      else if c == 0x72 then Some(Char([0x0d], u))
      else if c == 0x74 then Some(Char([0x09], u))
      else if c == 0x75 && |u| >= 4 then ReadUnicode(u)
      else None
  }

  /** After \u: a code unit below or above the surrogates, or a surrogate pair. */
  function ReadUnicode(u: Buffer): (r: Option<Char>)
    requires |u| >= 4
    ensures r.Some? ==> |r.value.rest| < |u|
  {
    match Hex4(u)
    case None => None
    case Some(hi) =>
      if hi < 0xd800 || 0xe000 <= hi < 0x1_0000 then Some(Char(Utf8(hi), u[4..]))
      else if hi < 0xdc00 && |u| >= 10 && u[4] == BACKSLASH && u[5] == 0x75 && Hex4(u[6..]).Some?
              && 0xdc00 <= Hex4(u[6..]).value < 0xe000 then
        Some(Char(Utf8(0x1_0000 + (hi - 0xd800) * 0x400 + (Hex4(u[6..]).value - 0xdc00)), u[10..]))
      else None
  }

  /** A string body up to its closing quote: its value, and the bytes behind the quote. */
  function ReadString(t: Buffer): Option<Char>
    decreases |t|
  {
    if t == [] || t[0] < 0x20 then None
    else if t[0] == QUOTE then Some(Char([], t[1..]))
    else
      var c := if t[0] == BACKSLASH then ReadEscape(t[1..]) else Some(Char([t[0]], t[1..]));
      if c.None? then None
      else
        var more := ReadString(c.value.rest);
        if more.None? then None else Some(Char(c.value.bytes + more.value.bytes, more.value.rest))
  }

  lemma Regroup(a: Buffer, b: Buffer, c: Buffer, d: Buffer)
    ensures (a + b) + c + d == a + (b + c + d)
  {
  }

  /** One escaped byte is one char of the grammar and reads back as that byte. */
  lemma ReadEscapedByte(c: byte, tail: Buffer)
    ensures var t := EscapeByte(c) + tail;
            && t[0] >= 0x20 && t[0] != QUOTE
            && (if t[0] == BACKSLASH then ReadEscape(t[1..]) else Some(Char([t[0]], t[1..]))) == Some(Char([c], tail))
  {
    var e := EscapeByte(c);
    var t := e + tail;
    assert t[|e|..] == tail;
    if |e| == 1 {
      assert t[1..] == tail;
    } else if |e| == 2 {
      assert t[1..] == [e[1]] + tail;
      assert t[1..][1..] == tail;
    } else {
      var hi, lo := HexDigit(c / 16), HexDigit(c % 16);
      assert t[1..] == [0x75, 0x30, 0x30, hi, lo] + tail;
      var u := t[1..][1..];
      assert u == [0x30, 0x30, hi, lo] + tail;
      assert u[4..] == tail;
      assert HexValue(hi) == Some(c / 16) && HexValue(lo) == Some(c % 16);
      assert Hex4(u) == Some(c);
    }
  }

  /**
   Whatever bytes are escaped: put between quotes they are one JSON string, which ends
   at the quote that was put there and whose value is the original bytes.
   */
  lemma {:induction false} EscapeReadsBack(s: Buffer, after: Buffer)
    ensures ReadString(Escape(s) + [QUOTE] + after) == Some(Char(s, after))
  {
    var t := Escape(s) + [QUOTE] + after;
    if s == [] {
      assert t == [QUOTE] + after;
    } else {
      var tail := Escape(s[1..]) + [QUOTE] + after;
      Regroup(EscapeByte(s[0]), Escape(s[1..]), [QUOTE], after);
      ReadEscapedByte(s[0], tail);
      EscapeReadsBack(s[1..], after);
      HeadTail(s);
    }
  }

  /** Different messages never become the same payload. */
  lemma {:induction false} EscapeInjective(s: Buffer, other: Buffer)
    requires Escape(s) == Escape(other)
    ensures s == other
  {
    EscapeReadsBack(s, []);
    EscapeReadsBack(other, []);
  }

  /** How many backslashes stand right before position i. */
  function Backslashes(r: Buffer, i: nat): (n: nat)
    requires i <= |r|
    ensures n <= i
  {
    if i == 0 || r[i - 1] != BACKSLASH then 0 else 1 + Backslashes(r, i - 1)
  }

  /** No raw control byte, and no quote that would end the string: an odd number of backslashes stands before each. */
  predicate Clean(r: Buffer) {
    forall i :: 0 <= i < |r| ==> CleanAt(r, i)
  }

  predicate CleanAt(r: Buffer, i: nat)
    requires i < |r|
  {
    r[i] >= 0x20 && (r[i] == QUOTE ==> Backslashes(r, i) % 2 == 1)
  }

  /** Every backslash belongs to an escape that is complete. */
  predicate Complete(r: Buffer) {
    Backslashes(r, |r|) % 2 == 0
  }

  lemma {:induction false} BackslashesBefore(a: Buffer, b: Buffer, i: nat)
    requires i <= |a|
    ensures Backslashes(a + b, i) == Backslashes(a, i)
  {
    if i > 0 {
      BackslashesBefore(a, b, i - 1);
    }
  }

  lemma {:induction false} BackslashesBehind(a: Buffer, b: Buffer, i: nat)
    requires i <= |b| && Complete(a)
    ensures Backslashes(a + b, |a| + i) % 2 == Backslashes(b, i) % 2
  {
    if i == 0 {
      BackslashesBefore(a, b, |a|);
    } else {
      assert (a + b)[|a| + i - 1] == b[i - 1];
      BackslashesBehind(a, b, i - 1);
    }
  }

  lemma CleanAppend(a: Buffer, b: Buffer)
    requires Clean(a) && Clean(b) && Complete(a) && Complete(b)
    ensures Clean(a + b) && Complete(a + b)
  {
    forall i | 0 <= i < |a + b|
      ensures CleanAt(a + b, i)
    {
      if i < |a| {
        assert CleanAt(a, i);
        BackslashesBefore(a, b, i);
      } else {
        assert CleanAt(b, i - |a|);
        BackslashesBehind(a, b, i - |a|);
      }
    }
    BackslashesBehind(a, b, |b|);
  }

  lemma EscapeByteIsClean(c: byte)
    ensures Clean(EscapeByte(c)) && Complete(EscapeByte(c))
  {
    var e := EscapeByte(c);
    assert Backslashes(e, 0) == 0;
    assert Backslashes(e, 1) == if e[0] == BACKSLASH then 1 else 0;
    if |e| == 6 {
      assert e[5] != BACKSLASH && e[4] != BACKSLASH;
    }
  }

  /** So an escaped text never ends the string it is put into, whatever stands in it. */
  lemma {:induction false} EscapeIsClean(s: Buffer)
    ensures Clean(Escape(s)) && Complete(Escape(s))
  {
    if s != [] {
      EscapeIsClean(s[1..]);
      EscapeByteIsClean(s[0]);
      CleanAppend(EscapeByte(s[0]), Escape(s[1..]));
    }
  }

  // ---------------------------------------------------------------------
  // ParseLlmResponse
  // ---------------------------------------------------------------------

  /** "content":" with its quotes. */
  const KEY: Buffer := [0x22, 0x63, 0x6f, 0x6e, 0x74, 0x65, 0x6e, 0x74, 0x22, 0x3a, 0x22]

  predicate OccursAt(json: Buffer, key: Buffer, at: nat) {
    at + |key| <= |json| && json[at..at + |key|] == key
  }

  /** The first place from some index on where the key occurs. */
  function First(json: Buffer, key: Buffer, from: nat): (r: Option<nat>)
    ensures r.None? ==> forall i: nat :: from <= i ==> !OccursAt(json, key, i)
    ensures r.Some? ==> from <= r.value && OccursAt(json, key, r.value)
    ensures r.Some? ==> forall i: nat :: from <= i < r.value ==> !OccursAt(json, key, i)
    decreases |json| - from
  {
    if from + |key| > |json| then None
    else if json[from..from + |key|] == key then Some(from)
    else First(json, key, from + 1)
  }

  /** std::string::find */
  method Find(json: Buffer, key: Buffer) returns (at: Option<nat>)
    ensures at == First(json, key, 0)
  {
    var i := 0;
    while i + |key| <= |json|
      invariant First(json, key, 0) == First(json, key, i)
      decreases |json| - i
    {
      if json[i..i + |key|] == key {
        return Some(i);
      }
      i := i + 1;
    }
    return None;
  }

  /** What the parser makes of the byte after a backslash. */
  function Unescape1(c: byte): byte {
    if c == 0x6e then 0x0a else if c == 0x74 then 0x09 else c
  }

  /** The loop of ParseLlmResponse from some byte on, with its flag. */
  function Scan(t: Buffer, esc: bool): Buffer {
    if t == [] then []
    else if esc then [Unescape1(t[0])] + Scan(t[1..], false)
    else if t[0] == BACKSLASH then Scan(t[1..], true)
    else if t[0] == QUOTE then []
    else [t[0]] + Scan(t[1..], false)
  }

  /** The content field of a response: from behind the first key up to the next unescaped quote. */
  function Content(json: Buffer): Buffer {
    match First(json, KEY, 0)
    case None => []
    case Some(at) => Scan(json[at + |KEY|..], false)
  }

  /** Without the key anywhere in it the response has no content. */
  method ParseLlmResponse(json: Buffer) returns (result: Buffer)
    ensures result == Content(json)
    ensures (forall i, j :: 0 <= i < j <= |json| && j == i + 11 ==>
               json[i..j] != [0x22, 0x63, 0x6f, 0x6e, 0x74, 0x65, 0x6e, 0x74, 0x22, 0x3a, 0x22]) ==>
              result == []
  {
    var pos := Find(json, KEY);
    assert pos.Some? ==> json[pos.value..pos.value + 11] == KEY;
    if pos.None? {
      return [];
    }
    result := ReadContent(json, pos.value + |KEY|);
  }

  /** The loop of ParseLlmResponse. */
  method ReadContent(json: Buffer, start: nat) returns (result: Buffer)
    requires start <= |json|
    ensures result == Scan(json[start..], false)
  {
    result := [];
    var esc := false;
    var i := start;
    while i < |json|
      invariant start <= i <= |json|
      invariant result + Scan(json[i..], esc) == Scan(json[start..], false)
      decreases |json| - i
    {
      var c := json[i];
      RestAt(json, i);
      if esc {
        Assoc(result, [Unescape1(c)], Scan(json[i + 1..], false));
        result := result + [Unescape1(c)];
        esc := false;
      } else if c == BACKSLASH {
        esc := true;
      } else if c == QUOTE {
        break;
      } else {
        Assoc(result, [c], Scan(json[i + 1..], false));
        result := result + [c];
      }
      i := i + 1;
    }
  }

  // ---------------------------------------------------------------------
  // What ParseLlmResponse makes of any content
  // ---------------------------------------------------------------------

  /** A byte that stands for itself, or a backslash with the byte behind it. */
  datatype Item = Plain(c: byte) | Pair(c: byte)

  function Text(items: seq<Item>): Buffer {
    if items == [] then []
    else
      (match items[0]
       case Plain(c) => [c]
       case Pair(c) => [BACKSLASH, c]) + Text(items[1..])
  }

  /** Only two pairs mean something else than their second byte. */
  function Meaning(items: seq<Item>): (bytes: Buffer)
    ensures |bytes| == |items|
    ensures forall i :: 0 <= i < |items| ==>
              bytes[i] == if items[i] == Pair(0x6e) then 0x0a
                          else if items[i] == Pair(0x74) then 0x09
                          else items[i].c
  {
    seq(|items|, i requires 0 <= i < |items| =>
      match items[i]
      case Plain(c) => c
      case Pair(c) => Unescape1(c))
  }

  predicate PlainIsPlain(items: seq<Item>) {
    forall item :: item in items && item.Plain? ==> item.c != 0x22 && item.c != 0x5c
  }

  /** What ends the content: the end of the response, an unescaped quote, or a last lonely backslash. */
  predicate Ends(end: Buffer) {
    end == [] || end[0] == 0x22 || end == [0x5c]
  }

  /** Every text is read as items up to such an end. */
  lemma {:induction false} Itemize(t: Buffer) returns (items: seq<Item>, end: Buffer)
    ensures PlainIsPlain(items) && Ends(end) && t == Text(items) + end
    decreases |t|
  {
    items, end := [], t;
    if t == [] || t[0] == 0x22 || t == [0x5c] {
      assert Text([]) + t == t;
    } else {
      var first := if t[0] == 0x5c then Pair(t[1]) else Plain(t[0]);
      var n := if t[0] == 0x5c then 2 else 1;
      var more;
      more, end := Itemize(t[n..]);
      items := [first] + more;
      TextCons(first, more);
      assert t[..n] == if t[0] == 0x5c then [0x5c, t[1]] else [t[0]];
      Assoc(t[..n], Text(more), end);
      assert t[..n] + t[n..] == t;
    }
  }

  lemma TextCons(item: Item, items: seq<Item>)
    ensures Text([item] + items) == (if item.Plain? then [item.c] else [BACKSLASH, item.c]) + Text(items)
  {
    assert ([item] + items)[1..] == items;
  }

  lemma MeaningCons(item: Item, items: seq<Item>)
    ensures Meaning([item] + items) == [if item.Plain? then item.c else Unescape1(item.c)] + Meaning(items)
  {
  }

  /** And its content is what these items mean. */
  lemma {:induction false} ScanMeaning(items: seq<Item>, end: Buffer)
    requires PlainIsPlain(items) && Ends(end)
    ensures Scan(Text(items) + end, false) == Meaning(items)
    decreases |items|
  {
    var t := Text(items) + end;
    if items == [] {
      assert t == end;
      if end == [0x5c] {
        assert end[1..] == [];
      }
    } else {
      var item, more := items[0], items[1..];
      assert item in items && forall i :: i in more ==> i in items;
      ScanMeaning(more, end);
      ScanItem(item, Text(more) + end);
      HeadTail(items);
      TextCons(item, more);
      MeaningCons(item, more);
      Assoc(if item.Plain? then [item.c] else [BACKSLASH, item.c], Text(more), end);
    }
  }

  lemma ScanItem(item: Item, rest: Buffer)
    requires PlainIsPlain([item])
    ensures Scan((if item.Plain? then [item.c] else [BACKSLASH, item.c]) + rest, false)
         == [if item.Plain? then item.c else Unescape1(item.c)] + Scan(rest, false)
  {
    assert item in [item];
    if item.Plain? {
      Parted([item.c], rest);
    } else {
      var t := [BACKSLASH, item.c] + rest;
      assert t[1..] == [item.c] + rest;
      Parted([item.c], rest);
    }
  }

  /** The bytes for which JsonEscape writes an escape that ParseLlmResponse does not know. */
  predicate NotUnderstood(c: byte) {
    c < 0x20 && c != 0x0a && c != 0x09
  }

  /** Scanning one escaped byte gives the byte back, or else something that starts with another one. */
  lemma ScanEscapedByte(c: byte, tail: Buffer)
    ensures var r := Scan(EscapeByte(c) + tail, false);
            if NotUnderstood(c) then r != [] && r[0] != c else r == [c] + Scan(tail, false)
  {
    var e := EscapeByte(c);
    var t := e + tail;
    if |e| == 1 {
      assert t[1..] == tail;
    } else {
      assert t[1..] == e[1..] + tail;
      assert t[1..][0] == e[1];
      if |e| == 2 {
        assert t[1..][1..] == tail;
      }
    }
  }

  /** What an escaped text scans to; it is the text exactly if every control byte in it is \n or \t. */
  lemma {:induction false} ScanEscape(s: Buffer, after: Buffer)
    ensures Scan(Escape(s) + [QUOTE] + after, false) == s <==> forall i :: 0 <= i < |s| ==> !NotUnderstood(s[i])
  {
    var t := Escape(s) + [QUOTE] + after;
    if s == [] {
      assert t == [QUOTE] + after;
    } else {
      var tail := Escape(s[1..]) + [QUOTE] + after;
      Regroup(EscapeByte(s[0]), Escape(s[1..]), [QUOTE], after);
      ScanEscapedByte(s[0], tail);
      ScanEscape(s[1..], after);
      if !NotUnderstood(s[0]) {
        var r := Scan(tail, false);
        assert Scan(t, false)[1..] == r;
        assert s == [s[0]] + s[1..];
        assert forall i :: 0 < i < |s| ==> s[i] == s[1..][i - 1];
      }
    }
  }

  /** Before the field there is no key, also none that ends with the first bytes of the field's own. */
  predicate KeyFree(before: Buffer) {
    First(before + KEY[..|KEY| - 1], KEY, 0).None?
  }

  lemma KeyCut(before: Buffer, rest: Buffer)
    ensures before + KEY + rest == (before + KEY[..|KEY| - 1]) + (KEY[|KEY| - 1..] + rest)
  {
    var a, b := KEY[..|KEY| - 1], KEY[|KEY| - 1..];
    assert a + b == KEY;
    Assoc(before, a, b);
    Assoc(before + a, b, rest);
  }

  /** That is exactly when the key of the field is the one that find() finds, whatever the field holds. */
  lemma {:induction false} KeyFirst(before: Buffer, rest: Buffer)
    ensures First(before + KEY + rest, KEY, 0) == Some(|before|) <==> KeyFree(before)
  {
    var json, head := before + KEY + rest, before + KEY[..|KEY| - 1];
    var tail := KEY[|KEY| - 1..] + rest;
    KeyCut(before, rest);
    Parted(before, KEY);
    InFront(before + KEY, rest, |before|, |before| + |KEY|);
    assert OccursAt(json, KEY, |before|);
    forall i: nat
      ensures OccursAt(head, KEY, i) <==> i < |before| && OccursAt(json, KEY, i)
    {
      if i < |before| {
        InFront(head, tail, i, i + |KEY|);
      }
    }
    if !KeyFree(before) {
      assert OccursAt(head, KEY, First(head, KEY, 0).value);
    }
  }

  /**
   ParseLlmResponse undoes JsonEscape exactly on the texts whose only bytes below 0x20
   are \n and \t, whatever surrounds the field, as long as the key does not occur earlier.
   */
  lemma {:induction false} ParseInvertsEscape(before: Buffer, s: Buffer, after: Buffer)
    requires KeyFree(before)
    ensures Content(before + KEY + Escape(s) + [QUOTE] + after) == s
            <==> forall i :: 0 <= i < |s| ==> !NotUnderstood(s[i])
  {
    var json, rest := before + KEY + Escape(s) + [QUOTE] + after, Escape(s) + [QUOTE] + after;
    Regroup(before + KEY, Escape(s), [QUOTE], after);
    KeyFirst(before, rest);
    Parted(before + KEY, rest);
    ScanEscape(s, after);
  }
}
