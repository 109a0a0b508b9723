/** The wire codec of the bus: `hk_msg_encode` and `hk_msg_decode`. Text is a C string without its
    terminator, so position |data| is where the NUL stands. */
module BusCodec {
  import opened Wrappers
  import opened BusTypes
  import opened Words

  // sizes of the message's text buffers, terminator included
  const KIND_SIZE: nat := 32
  const FROM_SIZE: nat := 64
  const TO_SIZE: nat := 64
  const TOPIC_SIZE: nat := 128
  const BODY_SIZE: nat := 8192

  // ---- encoding ----

  function Digit(d: nat): char
    requires d < 10
  {
    '0' + d as char
  }

  function Decimal(n: nat): string {
    if n < 10 then [Digit(n)] else Decimal(n / 10) + [Digit(n % 10)]
  }

  function Key(key: string): string { "\"" + key + "\":" }

  function Field(key: string, value: string): string { Key(key) + "\"" + value + "\"," }

  /** The text that the format string of `hk_msg_encode` describes. */
  function Encode(m: Message): string {
    "{" + (Field("type", m.kind) + (Field("from", m.from) + (Field("to", m.to) + (Field("topic", m.topic) +
    (Key("corr") + Decimal(m.corr) + "," + (Key("body") + "\"" + m.body + "\"}"))))))
  }

  /** `hk_msg_encode`: as much of the text as fits the buffer with its terminator. The returned length tells
      whether that is all of it. */
  method EncodeInto(m: Message, size: nat) returns (out: string, rc: int)
    ensures size == 0 ==> rc == -1
    ensures size > 0 ==> rc == |Encode(m)| && out <= Encode(m) && |out| < size
    ensures size > 0 ==> (out == Encode(m) <==> rc < size) && (rc >= size ==> |out| == size - 1)
  {
    if size == 0 { return "", -1; }
    var text := Encode(m);
    return if |text| < size then text else text[..size - 1], |text|;
  }

  // ---- the C library ----

  predicate OccursAt(s: string, i: nat, needle: string) {
    i + |needle| <= |s| && s[i..i + |needle|] == needle
  }

  function StrStrFrom(s: string, needle: string, i: nat): Option<nat>
    decreases |s| + 1 - i
  {
    if i > |s| then None else if OccursAt(s, i, needle) then Some(i) else StrStrFrom(s, needle, i + 1)
  }

  function StrStr(s: string, needle: string): Option<nat> { StrStrFrom(s, needle, 0) }

  function StrChrFrom(s: string, c: char, i: nat): Option<nat>
    decreases |s| - i
  {
    if i >= |s| then None else if s[i] == c then Some(i) else StrChrFrom(s, c, i + 1)
  }

  predicate IsDigit(c: char) { '0' <= c <= '9' }

  predicate IsSpace(c: char) { c == ' ' || '\t' <= c <= '\r' }

  function DigitRun(s: string): (n: nat)
    ensures n <= |s| && forall k :: 0 <= k < n ==> IsDigit(s[k])
  {
    if s != "" && IsDigit(s[0]) then 1 + DigitRun(s[1..]) else 0
  }

  function Value(ds: string): nat
    requires forall k :: 0 <= k < |ds| ==> IsDigit(ds[k])
  {
    if ds == "" then 0 else
      assert IsDigit(ds[|ds| - 1]);
      Value(ds[..|ds| - 1]) * 10 + (ds[|ds| - 1] - '0') as nat
  }

  /** `strtoull(s, _, 10)`: blanks, a sign, digits; saturating, and negated modulo 2^64 after a minus. */
  function StrToULL(s: string): nat {
    if s != "" && IsSpace(s[0]) then StrToULL(s[1..])
    else
      var signed := s != "" && (s[0] == '-' || s[0] == '+');
      var rest := if signed then s[1..] else s;
      var v := Value(rest[..DigitRun(rest)]);
      if v >= TWO_64 then TWO_64 - 1 else if signed && s[0] == '-' && v > 0 then TWO_64 - v else v
  }

  // ---- decoding ----

  /** The text from `val` to the next quote, as far as it fits `size`. */
  function TextFrom(data: string, len: nat, val: nat, size: nat): Option<string>
    requires size > 0
  {
    var closing := StrChrFrom(data, '"', val);
    if closing.None? || closing.value >= len then None
    else
      StrChrBounds(data, '"', val);
      Some(Cut(data[val..closing.value], size))
  }

  function TextAfter(data: string, len: nat, needle: string, size: nat): Option<string>
    requires size > 0
  {
    var found := StrStr(data, needle);
    if found.None? || found.value >= len then None else TextFrom(data, len, found.value + |needle|, size)
  }

  function ExtractStr(data: string, len: nat, key: string, size: nat): Option<string>
    requires size > 0
  {
    TextAfter(data, len, Key(key) + "\"", size)
  }

  /** What fits a buffer of `size` characters with its terminator. */
  function Cut(text: string, size: nat): string
    requires size > 0
  {
    if |text| < size then text else text[..size - 1]
  }

  function NumberAfter(data: string, len: nat, needle: string): nat {
    var found := StrStr(data, needle);
    if found.None? || found.value >= len || found.value + |needle| > |data| then 0
    else StrToULL(data[found.value + |needle|..])
  }

  function ExtractU64(data: string, len: nat, key: string): nat { NumberAfter(data, len, Key(key)) }

  /** Where the body scan stops: at a quote that no backslash precedes, or at the end. */
  function BodyEnd(data: string, be: nat, len: nat): nat
    decreases |data| - be
  {
    if be >= len || be >= |data| then be
    else if data[be] == '\\' && be + 1 < |data| && data[be + 1] == '"' then BodyEnd(data, be + 2, len)
    else if data[be] == '"' then be
    else BodyEnd(data, be + 1, len)
  }

  function ExtractBody(data: string, len: nat): string {
    var found := StrStr(data, Key("body") + "\"");
    if found.None? || found.value >= len then ""
    else
      var bp := found.value + |Key("body") + "\""|;
      var be := BodyEnd(data, bp, len);
      if bp <= be <= |data| then Cut(data[bp..be], BODY_SIZE) else ""
  }

  function OrEmpty(o: Option<string>): string { if o.Some? then o.value else "" }

  function Decode(data: string, len: nat): Message {
    Message(OrEmpty(ExtractStr(data, len, "type", KIND_SIZE)),
            OrEmpty(ExtractStr(data, len, "from", FROM_SIZE)),
            OrEmpty(ExtractStr(data, len, "to", TO_SIZE)),
            OrEmpty(ExtractStr(data, len, "topic", TOPIC_SIZE)),
            ExtractU64(data, len, "corr"),
            ExtractBody(data, len))
  }

  lemma StrStrBounds(s: string, needle: string, i: nat)
    ensures var r := StrStrFrom(s, needle, i);
            r.Some? ==> i <= r.value && OccursAt(s, r.value, needle)
    decreases |s| + 1 - i
  {
  }

  lemma StrChrBounds(s: string, c: char, i: nat)
    ensures var r := StrChrFrom(s, c, i); r.Some? ==> i <= r.value < |s| && s[r.value] == c
    decreases |s| - i
  {
  }

  lemma BodyEndBounds(data: string, be: nat, len: nat)
    requires be <= |data|
    ensures be <= BodyEnd(data, be, len) <= |data|
    decreases |data| - be
  {
  }

  /** The scanning loop of `hk_msg_decode`. */
  method ScanBody(data: string, bp: nat, len: nat) returns (be: nat)
    requires bp <= |data|
    ensures be == BodyEnd(data, bp, len) && bp <= be <= |data|
  {
    be := bp;
    while be < len && be < |data|
      invariant bp <= be <= |data|
      invariant BodyEnd(data, be, len) == BodyEnd(data, bp, len)
      decreases |data| - be
    {
      if data[be] == '\\' && be + 1 < |data| && data[be + 1] == '"' {
        be := be + 2;
      } else if data[be] == '"' {
        break;
      } else {
        be := be + 1;
      }
    }
  }

  lemma SliceOfSlice(s: string, i: nat, j: nat, n: nat)
    requires i <= j <= |s| && n <= j - i
    ensures s[i..j][..n] == s[i..i + n]
  {
  }

  method BodyText(data: string, len: nat) returns (body: string)
    ensures body == ExtractBody(data, len)
  {
    var needle := Key("body") + "\"";
    var found := StrStr(data, needle);
    if found.None? || found.value >= len { return ""; }
    StrStrBounds(data, needle, 0);
    var bp := found.value + |needle|;
    var be := ScanBody(data, bp, len);
    var blen := be - bp;
    if blen >= BODY_SIZE { blen := BODY_SIZE - 1; }
    body := data[bp..bp + blen];
    BodyEndBounds(data, bp, len);
    SliceOfSlice(data, bp, be, blen);
  }

  method DecodeMessage(data: string, len: nat) returns (out: Message, rc: int)
    ensures len == 0 ==> rc == -1
    ensures len > 0 ==> rc == 0 && out == Decode(data, len)
  {
    if len == 0 { return Message("", "", "", "", 0, ""), -1; }
    var body := BodyText(data, len);
    out := Message(OrEmpty(ExtractStr(data, len, "type", KIND_SIZE)),
                   OrEmpty(ExtractStr(data, len, "from", FROM_SIZE)),
                   OrEmpty(ExtractStr(data, len, "to", TO_SIZE)),
                   OrEmpty(ExtractStr(data, len, "topic", TOPIC_SIZE)),
                   ExtractU64(data, len, "corr"), body);
    return out, 0;
  }

  // ---- finding the right key ----

  predicate QuoteFree(s: string) { '"' !in s }

  /** The needle does not begin inside `pre` when `s` follows it. */
  ghost predicate Clear(pre: string, s: string, needle: string) {
    forall i :: 0 <= i < |pre| ==> !OccursAt(pre + s, i, needle)
  }

  lemma ClearConcat(a: string, b: string, s: string, needle: string)
    requires Clear(a, b + s, needle) && Clear(b, s, needle)
    ensures Clear(a + b, s, needle)
  {
    assert (a + b) + s == a + (b + s);
    forall i | 0 <= i < |a + b| ensures !OccursAt((a + b) + s, i, needle) {
      if i >= |a| && OccursAt(a + (b + s), i, needle) {
        assert (a + (b + s))[i..i + |needle|] == (b + s)[i - |a|..i - |a| + |needle|];
        assert OccursAt(b + s, i - |a|, needle);
      }
    }
  }

  lemma {:induction false} StrStrSkips(s: string, needle: string, i: nat, j: nat)
    requires i <= j <= |s| && OccursAt(s, j, needle)
    requires forall k :: i <= k < j ==> !OccursAt(s, k, needle)
    ensures StrStrFrom(s, needle, i) == Some(j)
    decreases j - i
  {
    if i < j { StrStrSkips(s, needle, i + 1, j); }
  }

  lemma StrStrFinds(pre: string, s: string, needle: string)
    requires Clear(pre, s, needle) && needle <= s
    ensures StrStr(pre + s, needle) == Some(|pre|)
  {
    assert (pre + s)[|pre|..|pre| + |needle|] == needle;
    StrStrSkips(pre + s, needle, 0, |pre|);
  }

  /** `w` stands in quotes at `i`. */
  ghost predicate Quoted(t: string, i: nat, w: string) {
    && i + |w| + 1 < |t| && t[i] == '"' && t[i + 1 + |w|] == '"'
    && forall j :: i < j <= i + |w| ==> t[j] == w[j - i - 1]
  }

  lemma KeyOccurrence(t: string, i: nat, key: string)
    requires OccursAt(t, i, Key(key))
    ensures Quoted(t, i, key) && i + 2 + |key| < |t| && t[i + 2 + |key|] == ':'
  {
    var n := t[i..i + |Key(key)|];
    assert n[0] == '"' && n[1 + |key|] == '"' && n[2 + |key|] == ':';
    assert forall j :: i < j <= i + |key| ==> t[j] == n[j - i] == key[j - i - 1];
  }

  lemma SameWord(t: string, i: nat, w: string, key: string)
    requires QuoteFree(w) && QuoteFree(key) && Quoted(t, i, w) && Quoted(t, i, key)
    ensures w == key
  {
    assert forall j :: i < j <= i + |w| ==> t[j] != '"' && t[j] == w[j - i - 1];
    assert forall j :: i < j <= i + |key| ==> t[j] != '"' && t[j] == key[j - i - 1];
    assert |w| == |key|;
    assert forall k :: 0 <= k < |w| ==> w[k] == t[i + 1 + k] == key[k];
  }

  /** A key found at the opening quote of a quoted word is that word, and a colon follows it. */
  lemma KeyAtWord(t: string, i: nat, w: string, key: string)
    requires QuoteFree(w) && QuoteFree(key) && Quoted(t, i, w)
    ensures OccursAt(t, i, Key(key)) ==> w == key && i + 2 + |w| < |t| && t[i + 2 + |w|] == ':'
  {
    if OccursAt(t, i, Key(key)) {
      KeyOccurrence(t, i, key);
      SameWord(t, i, w, key);
    }
  }

  lemma KeyStarts(t: string, i: nat, key: string)
    requires key != ""
    ensures OccursAt(t, i, Key(key)) ==> i + 1 < |t| && t[i] == '"' && t[i + 1] == key[0]
  {
    if OccursAt(t, i, Key(key)) { KeyOccurrence(t, i, key); }
  }

  lemma FieldShape(key: string, value: string, s: string)
    ensures var t, v := Field(key, value) + s, |key| + 3;
            && |Field(key, value)| == v + |value| + 3
            && Quoted(t, 0, key) && t[|key| + 2] == ':' && Quoted(t, v, value) && t[v + 2 + |value|] == ','
  {
  }

  /** No other key begins inside a field whose texts have no quotes. */
  lemma FieldClear(key: string, value: string, s: string, other: string)
    requires QuoteFree(key) && QuoteFree(value) && QuoteFree(other) && key != other
    requires other != "" && other[0] != ':' && other[0] != ','
    ensures Clear(Field(key, value), s, Key(other))
  {
    var t, v := Field(key, value) + s, |key| + 3;
    FieldShape(key, value, s);
    KeyAtWord(t, 0, key, other);
    KeyAtWord(t, v, value, other);
    forall i | 0 <= i < |Field(key, value)| ensures !OccursAt(t, i, Key(other)) {
      KeyStarts(t, i, other);
    }
  }

  lemma ClearLonger(pre: string, s: string, needle: string, more: string)
    requires Clear(pre, s, needle)
    ensures Clear(pre, s, needle + more)
  {
    forall i | 0 <= i < |pre| ensures !OccursAt(pre + s, i, needle + more) {
      if OccursAt(pre + s, i, needle + more) {
        var t := pre + s;
        assert t[i..i + |needle + more|][..|needle|] == t[i..i + |needle|];
        assert (needle + more)[..|needle|] == needle;
        assert OccursAt(t, i, needle);
      }
    }
  }
}
