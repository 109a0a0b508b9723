/** What the encoder writes, character by character, and what the decoder reads from any text. */
module BusFields {
  import opened Basics
  import opened Wrappers
  import opened BusTypes
  import opened BusCodec
  import opened BusRoundTrip

  // ---- what is written ----

  lemma FieldText(key: string, front: string, value: string, rest: string)
    requires front == "\"" + key + "\":\""
    ensures Field(key, value) + rest == front + (value + ("\"," + rest))
  {
    assert Field(key, value) == (front + value) + "\",";
    Assoc(front + value, "\",", rest);
    Assoc(front, value, "\"," + rest);
  }

  lemma NumberText(n: string, body: string)
    ensures Key("corr") + n + "," + (Key("body") + "\"" + body + "\"}") == "\"corr\":" + (n + (",\"body\":\"" + (body + "\"}")))
  {
    assert Key("body") + "\"" + body + "\"}" == "\"body\":\"" + (body + "\"}");
    assert "," + ("\"body\":\"" + (body + "\"}")) == ",\"body\":\"" + (body + "\"}");
    Assoc(Key("corr") + n, ",", "\"body\":\"" + (body + "\"}"));
    Assoc(Key("corr"), n, ",\"body\":\"" + (body + "\"}"));
  }

  lemma Joined(a: string, b: string, ab: string, x: string)
    requires a + b == ab
    ensures a + (b + x) == ab + x
  {
    Assoc(a, b, x);
  }

  /** The whole text of a message: the six keys in order, strings in quotes, the number as it is, in braces. */
  lemma EncodedText(m: Message)
    ensures Encode(m) ==
              "{\"type\":\"" + (m.kind + ("\",\"from\":\"" + (m.from + ("\",\"to\":\"" + (m.to + ("\",\"topic\":\"" +
              (m.topic + ("\",\"corr\":" + (Decimal(m.corr) + (",\"body\":\"" + (m.body + "\"}")))))))))))
  {
    hide Field, Decimal;
    var corr := Decimal(m.corr) + (",\"body\":\"" + (m.body + "\"}"));
    NumberText(Decimal(m.corr), m.body);
    var topic := m.topic + ("\",\"corr\":" + corr);
    FieldText("topic", "\"topic\":\"", m.topic, "\"corr\":" + corr);
    Joined("\",", "\"corr\":", "\",\"corr\":", corr);
    var to := m.to + ("\",\"topic\":\"" + topic);
    FieldText("to", "\"to\":\"", m.to, "\"topic\":\"" + topic);
    Joined("\",", "\"topic\":\"", "\",\"topic\":\"", topic);
    var from := m.from + ("\",\"to\":\"" + to);
    FieldText("from", "\"from\":\"", m.from, "\"to\":\"" + to);
    FieldText("from", "\"from\":\"", m.from, "\"to\":\"" + to);
    Joined("\",", "\"to\":\"", "\",\"to\":\"", to);
    FieldText("type", "\"type\":\"", m.kind, "\"from\":\"" + from);
    Joined("\",", "\"from\":\"", "\",\"from\":\"", from);
    Joined("{", "\"type\":\"", "{\"type\":\"", m.kind + ("\",\"from\":\"" + from));
  }

  function Pow10(k: nat): (r: nat)
    ensures r > 0
  {
    if k == 0 then 1 else 10 * Pow10(k - 1)
  }

  /** Digits weigh by their place: the first of a number most. */
  lemma {:induction false} FirstDigitWeighs(c: char, ds: string)
    requires IsDigit(c) && forall k :: 0 <= k < |ds| ==> IsDigit(ds[k])
    ensures (forall k :: 0 <= k < |[c] + ds| ==> IsDigit(([c] + ds)[k]))
    ensures Value([c] + ds) == (c as int - '0' as int) * Pow10(|ds|) + Value(ds)
  {
    if ds == "" {
      assert [c] + ds == [c] && [c][..0] == "";
    } else {
      var init := ds[..|ds| - 1];
      FirstDigitWeighs(c, init);
      assert ([c] + ds)[..|ds|] == [c] + init;
      TenTimes(c as int - '0' as int, Pow10(|init|), Pow10(|ds|));
    }
  }

  lemma TenTimes(d: int, p: nat, pp: nat)
    requires pp == 10 * p
    ensures 10 * (d * p) == d * pp
  {
  }

  /** A number is written with its value, in digits, without leading zeros. */
  lemma {:induction false} DecimalMeans(n: nat)
    ensures Decimal(n) != "" && (forall k :: 0 <= k < |Decimal(n)| ==> '0' <= Decimal(n)[k] <= '9')
    ensures Value(Decimal(n)) == n && (Decimal(n)[0] == '0' ==> n == 0 && Decimal(n) == "0")
  {
    DecimalDigits(n);
    if n >= 10 {
      DecimalMeans(n / 10);
      assert Decimal(n)[0] == Decimal(n / 10)[0];
    }
  }

  // ---- what `strtoull` reads ----

  /** The ASCII codes of white space. */
  predicate BlankCode(c: char) { 9 <= c as int <= 13 || c as int == 32 }

  lemma {:induction false} BlanksSkipped(blanks: string, s: string)
    requires forall k :: 0 <= k < |blanks| ==> BlankCode(blanks[k])
    ensures StrToULL(blanks + s) == StrToULL(s)
  {
    if blanks == "" {
      assert blanks + s == s;
    } else {
      assert (blanks + s)[1..] == blanks[1..] + s;
      BlanksSkipped(blanks[1..], s);
    }
  }

  lemma {:induction false} DigitsTaken(ds: string, rest: string)
    requires (forall k :: 0 <= k < |ds| ==> '0' <= ds[k] <= '9') && (rest == "" || !('0' <= rest[0] <= '9'))
    ensures DigitRun(ds + rest) == |ds| && (ds + rest)[..|ds|] == ds
  {
    if ds == "" {
      assert ds + rest == rest;
    } else {
      assert (ds + rest)[1..] == ds[1..] + rest;
      DigitsTaken(ds[1..], rest);
    }
  }

  /** Blanks, perhaps a sign, digits, and anything else behind them: the value, at most 2^64 - 1, and after a minus its
      complement. Without digits the number is 0. */
  lemma NumberMeans(blanks: string, sign: string, ds: string, rest: string)
    requires forall k :: 0 <= k < |blanks| ==> BlankCode(blanks[k])
    requires sign == "" || sign == "+" || sign == "-"
    requires (forall k :: 0 <= k < |ds| ==> '0' <= ds[k] <= '9') && (rest == "" || !('0' <= rest[0] <= '9'))
    requires sign == "" && ds == "" && rest != "" ==> !BlankCode(rest[0]) && rest[0] != '+' && rest[0] != '-'
    ensures StrToULL(blanks + (sign + (ds + rest))) ==
              if Value(ds) > 0xFFFF_FFFF_FFFF_FFFF then 0xFFFF_FFFF_FFFF_FFFF
              else if sign == "-" && Value(ds) > 0 then 0x1_0000_0000_0000_0000 - Value(ds) else Value(ds)
    ensures ds == "" ==> Value(ds) == 0
  {
    BlanksSkipped(blanks, sign + (ds + rest));
    var s := sign + (ds + rest);
    DigitsTaken(ds, rest);
    if sign == "" {
      assert s == ds + rest;
    } else {
      assert s[1..] == ds + rest;
    }
  }

  // ---- what is read of a field ----

  predicate StandsAt(data: string, text: string, k: nat) { k + |text| <= |data| && data[k..k + |text|] == text }

  /** The first place where the text stands, if it is before `len`. */
  ghost predicate FirstPlace(data: string, text: string, len: nat, i: nat) {
    i < len && StandsAt(data, text, i) && forall k: nat :: k < i ==> !StandsAt(data, text, k)
  }

  ghost predicate NoPlace(data: string, text: string, len: nat) {
    forall i :: !FirstPlace(data, text, len, i)
  }

  lemma {:induction false} StrStrFromFirst(s: string, needle: string, i: nat, at: nat)
    requires i <= at && OccursAt(s, at, needle) && forall k :: i <= k < at ==> !OccursAt(s, k, needle)
    ensures StrStrFrom(s, needle, i) == Some(at)
    decreases at - i
  {
    if i < at { StrStrFromFirst(s, needle, i + 1, at); }
  }

  lemma {:induction false} StrStrFromSkips(s: string, needle: string, i: nat)
    ensures var r := StrStrFrom(s, needle, i);
            r.Some? ==> i <= r.value && OccursAt(s, r.value, needle) && forall k: nat :: i <= k < r.value ==> !OccursAt(s, k, needle)
    decreases |s| + 1 - i
  {
    if i <= |s| && !OccursAt(s, i, needle) { StrStrFromSkips(s, needle, i + 1); }
  }

  lemma FoundFirst(data: string, text: string, len: nat)
    ensures forall i: nat :: FirstPlace(data, text, len, i) ==> StrStr(data, text) == Some(i)
    ensures NoPlace(data, text, len) ==> StrStr(data, text).None? || StrStr(data, text).value >= len
  {
    forall i: nat | FirstPlace(data, text, len, i) ensures StrStr(data, text) == Some(i) {
      forall k: nat | k < i ensures !OccursAt(data, k, text) {
        assert !StandsAt(data, text, k);
      }
      StrStrFromFirst(data, text, 0, i);
    }
    StrStrFromSkips(data, text, 0);
    var r := StrStr(data, text);
    assert r == StrStrFrom(data, text, 0);
    hide StrStrFrom;
    if r.Some? && r.value < len {
      forall k: nat | k < r.value ensures !StandsAt(data, text, k) {
        assert !OccursAt(data, k, text);
      }
      assert FirstPlace(data, text, len, r.value);
    }
  }

  lemma {:induction false} QuoteFound(data: string, at: nat, j: nat)
    requires at <= j < |data| && data[j] == '"' && forall k :: at <= k < j ==> data[k] != '"'
    ensures StrChrFrom(data, '"', at) == Some(j)
    decreases j - at
  {
    if at < j { QuoteFound(data, at + 1, j); }
  }

  /** A string field: it begins behind the first place where its key stands, if that is before `len`, and ends at the
      next quote, if that is too; of longer text as much is taken as fits the buffer with its terminator. */
  lemma FieldMeans(data: string, len: nat, key: string, size: nat, i: nat, j: nat)
    requires size > 0 && FirstPlace(data, "\"" + key + "\":\"", len, i)
    requires var at := i + |key| + 4; at <= j < |data| && data[j] == '"' && forall k :: at <= k < j ==> data[k] != '"'
    ensures var at := i + |key| + 4;
            ExtractStr(data, len, key, size) ==
              if j >= len then None else Some(if j - at < size then data[at..j] else data[at..at + size - 1])
  {
    var needle, at := Key(key) + "\"", i + |key| + 4;
    assert needle == "\"" + key + "\":\"";
    FoundFirst(data, needle, len);
    QuoteFound(data, at, j);
    CutAt(data, at, j, size);
    hide FirstPlace, StrStr, StrChrFrom, Cut, Key;
  }

  lemma CutAt(data: string, at: nat, j: nat, size: nat)
    requires at <= j <= |data| && size > 0
    ensures Cut(data[at..j], size) == if j - at < size then data[at..j] else data[at..at + size - 1]
  {
    if j - at >= size { assert data[at..j][..size - 1] == data[at..at + size - 1]; }
  }

  lemma FieldMissing(data: string, len: nat, key: string, size: nat)
    requires size > 0 && NoPlace(data, "\"" + key + "\":\"", len)
    ensures ExtractStr(data, len, key, size) == None
  {
    assert Key(key) + "\"" == "\"" + key + "\":\"";
    FoundFirst(data, Key(key) + "\"", len);
  }

  lemma FieldOpen(data: string, len: nat, key: string, size: nat, i: nat)
    requires size > 0 && FirstPlace(data, "\"" + key + "\":\"", len, i)
    requires forall k :: i + |key| + 4 <= k < |data| ==> data[k] != '"'
    ensures ExtractStr(data, len, key, size) == None
  {
    var needle := Key(key) + "\"";
    assert needle == "\"" + key + "\":\"";
    FoundFirst(data, needle, len);
    StrChrBounds(data, '"', i + |needle|);
  }

  /** A number field: what `strtoull` reads behind the first place of its key, 0 if there is none. */
  lemma NumberFieldMeans(data: string, len: nat, key: string)
    ensures forall i: nat :: FirstPlace(data, "\"" + key + "\":", len, i) ==>
              ExtractU64(data, len, key) == StrToULL(data[i + |key| + 3..])
    ensures NoPlace(data, "\"" + key + "\":", len) ==> ExtractU64(data, len, key) == 0
  {
    assert Key(key) == "\"" + key + "\":";
    FoundFirst(data, Key(key), len);
  }

  /** A quote that no backslash of the body stands before. */
  predicate Bare(data: string, p: nat, j: nat)
    requires p <= j < |data|
  {
    data[j] == '"' && (j == p || data[j - 1] != '\\')
  }

  /** Where the body ends if no bare quote ends it before `len`: at `len`, at the end of the text, or behind a quote
      that is skipped with the backslash before it. */
  function RunsTo(data: string, p: nat, len: nat): nat
    requires p <= |data|
  {
    if p >= len then p
    else if len >= |data| then |data|
    else if data[len - 1] == '\\' && data[len] == '"' then len + 1 else len
  }

  /** The scan stands where no backslash takes the next quote with it. */
  predicate Between(data: string, p: nat, at: nat) {
    p <= at <= |data| && (at == p || at == |data| || data[at - 1] != '\\' || data[at] != '"')
  }

  lemma {:induction false} BodyStops(data: string, p: nat, at: nat, len: nat, j: nat)
    requires Between(data, p, at) && at <= j < |data| && j < len && Bare(data, p, j)
    requires forall k :: at <= k < j ==> !Bare(data, p, k)
    ensures BodyEnd(data, at, len) == j
    decreases j - at
  {
    if at < j {
      if data[at] == '\\' && data[at + 1] == '"' {
        assert !Bare(data, p, at + 1);
        BodyStops(data, p, at + 2, len, j);
      } else {
        assert !Bare(data, p, at);
        BodyStops(data, p, at + 1, len, j);
      }
    }
  }

  lemma {:induction false} BodyRuns(data: string, p: nat, at: nat, len: nat)
    requires Between(data, p, at) && forall k :: at <= k < |data| && k < len ==> !Bare(data, p, k)
    requires at > p ==> at <= len || (at == len + 1 && at >= p + 2 && data[at - 2] == '\\' && data[at - 1] == '"')
    ensures BodyEnd(data, at, len) == RunsTo(data, p, len)
    decreases |data| - at
  {
    if at < len && at < |data| {
      assert !Bare(data, p, at);
      if data[at] == '\\' && at + 1 < |data| && data[at + 1] == '"' {
        BodyRuns(data, p, at + 2, len);
      } else {
        BodyRuns(data, p, at + 1, len);
      }
    }
  }

  /** The scan of a body stops at the first bare quote, if there is one before `len`. */
  lemma BodyEndMeans(data: string, p: nat, len: nat)
    requires p <= |data|
    ensures forall j :: p <= j < |data| && j < len && Bare(data, p, j) && (forall k :: p <= k < j ==> !Bare(data, p, k)) ==>
              BodyEnd(data, p, len) == j
    ensures (forall j :: p <= j < |data| && j < len ==> !Bare(data, p, j)) ==> BodyEnd(data, p, len) == RunsTo(data, p, len)
  {
    forall j | p <= j < |data| && j < len && Bare(data, p, j) && forall k :: p <= k < j ==> !Bare(data, p, k)
      ensures BodyEnd(data, p, len) == j
    {
      BodyStops(data, p, p, len, j);
    }
    if forall j :: p <= j < |data| && j < len ==> !Bare(data, p, j) { BodyRuns(data, p, p, len); }
  }

  /** The body: what the scan delimits behind the first place of its key, if that is before `len`, at most 8191
      characters of it; nothing otherwise. */
  lemma BodyMeans(data: string, len: nat)
    ensures forall i: nat :: FirstPlace(data, "\"body\":\"", len, i) ==>
              var at := i + 8;
              && at <= BodyEnd(data, at, len) <= |data|
              && var body := data[at..BodyEnd(data, at, len)];
                 ExtractBody(data, len) == if |body| <= 8191 then body else body[..8191]
    ensures NoPlace(data, "\"body\":\"", len) ==> ExtractBody(data, len) == ""
  {
    var needle := Key("body") + "\"";
    assert needle == "\"body\":\"";
    FoundFirst(data, needle, len);
    forall i: nat | FirstPlace(data, needle, len, i) ensures i + 8 <= BodyEnd(data, i + 8, len) <= |data| {
      BodyEndBounds(data, i + 8, len);
    }
  }

  /** The sizes: at most 31, 63, 63, 127 and 8191 characters are kept, and messages within them are those that fit. */
  lemma DecodedSizes(data: string, len: nat, m: Message)
    ensures Decode(data, len) ==
              Message(OrEmpty(ExtractStr(data, len, "type", 32)), OrEmpty(ExtractStr(data, len, "from", 64)),
                      OrEmpty(ExtractStr(data, len, "to", 64)), OrEmpty(ExtractStr(data, len, "topic", 128)),
                      ExtractU64(data, len, "corr"), ExtractBody(data, len))
    ensures |ExtractBody(data, len)| <= 8191
    ensures Fits(m) <==>
              && |m.kind| <= 31 && |m.from| <= 63 && |m.to| <= 63 && |m.topic| <= 127 && |m.body| <= 8191
              && m.corr <= 0xFFFF_FFFF_FFFF_FFFF
  {
  }
}
