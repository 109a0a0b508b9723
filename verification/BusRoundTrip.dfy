/** Decoding undoes encoding exactly for the messages whose quotes the scanners can see through. */
module BusRoundTrip {
  import opened Basics
  import opened Wrappers
  import opened BusTypes
  import opened Words
  import opened BusCodec

  // ---- numbers ----

  lemma {:induction false} DecimalDigits(n: nat)
    ensures Decimal(n) != "" && forall k :: 0 <= k < |Decimal(n)| ==> IsDigit(Decimal(n)[k])
    ensures Value(Decimal(n)) == n
  {
    if n >= 10 {
      DecimalDigits(n / 10);
      assert Decimal(n)[..|Decimal(n)| - 1] == Decimal(n / 10);
    }
  }

  lemma {:induction false} RunOfDigits(ds: string, rest: string)
    requires forall k :: 0 <= k < |ds| ==> IsDigit(ds[k])
    requires rest != "" && !IsDigit(rest[0])
    ensures DigitRun(ds + rest) == |ds|
  {
    if ds == "" {
      assert ds + rest == rest;
    } else {
      assert (ds + rest)[1..] == ds[1..] + rest;
      RunOfDigits(ds[1..], rest);
    }
  }

  lemma NumberRoundTrip(n: nat, rest: string)
    requires n < TWO_64 && rest != "" && !IsDigit(rest[0])
    ensures StrToULL(Decimal(n) + rest) == n
  {
    DecimalDigits(n);
    RunOfDigits(Decimal(n), rest);
    var s := Decimal(n) + rest;
    assert IsDigit(s[0]) by { assert s[0] == Decimal(n)[0]; }
    assert s[..|Decimal(n)|] == Decimal(n);
  }

  // ---- text fields ----

  /** The text up to its first quote. */
  function UpToQuote(s: string): string {
    if s == "" || s[0] == '"' then "" else [s[0]] + UpToQuote(s[1..])
  }

  lemma {:induction false} UpToQuoteIsAll(s: string)
    ensures |UpToQuote(s)| <= |s|
    ensures UpToQuote(s) == s <==> QuoteFree(s)
  {
    if s != "" && s[0] != '"' {
      UpToQuoteIsAll(s[1..]);
      assert s == [s[0]] + s[1..];
    }
  }

  lemma {:induction false} ClosingQuote(data: string, i: nat, v: string)
    requires i + |v| < |data| && data[i..i + |v|] == v && data[i + |v|] == '"'
    ensures StrChrFrom(data, '"', i) == Some(i + |UpToQuote(v)|)
    ensures i + |UpToQuote(v)| <= |data| && data[i..i + |UpToQuote(v)|] == UpToQuote(v)
    decreases |v|
  {
    UpToQuoteIsAll(v);
    if v != "" {
      assert data[i] == data[i..i + |v|][0] == v[0];
      if v[0] != '"' {
        assert data[i + 1..i + 1 + |v[1..]|] == data[i..i + |v|][1..];
        ClosingQuote(data, i + 1, v[1..]);
        var u := UpToQuote(v[1..]);
        assert data[i..i + 1 + |u|] == [data[i]] + data[i + 1..i + 1 + |u|];
      }
    }
  }

  lemma DropTwo(a: string, b: string, c: string)
    ensures (a + (b + c))[|a| + |b|..] == c
  {
  }

  lemma TextAt(data: string, at: nat, value: string, s: string, size: nat)
    requires at <= |data| && data[at..] == value + s && |value| < size && s != "" && s[0] == '"'
    ensures TextFrom(data, |data|, at, size) == Some(UpToQuote(value))
  {
    assert at + |value| < |data| && data[at..at + |value|] == value && data[at + |value|] == '"' by {
      SliceOfSlice(data, at, |data|, |value|);
      assert data[at + |value|] == data[at..][|value|];
    }
    TextFromQuote(data, at, value, size);
  }

  lemma TextFromQuote(data: string, at: nat, value: string, size: nat)
    requires at + |value| < |data| && data[at..at + |value|] == value && data[at + |value|] == '"' && |value| < size
    ensures TextFrom(data, |data|, at, size) == Some(UpToQuote(value))
  {
    hide StrChrFrom, TextFrom, UpToQuote;
    UpToQuoteIsAll(value);
    ClosingQuote(data, at, value);
    var u := UpToQuote(value);
    CutFrom(data, at, at + |u|, u, size);
  }

  lemma CutFrom(data: string, at: nat, closing: nat, u: string, size: nat)
    requires at <= closing < |data| && StrChrFrom(data, '"', at) == Some(closing) && data[at..closing] == u && |u| < size
    ensures TextFrom(data, |data|, at, size) == Some(u)
  {
  }

  lemma TextAfterNeedle(pre: string, needle: string, value: string, s: string, size: nat)
    requires Clear(pre, needle + (value + s), needle) && |value| < size && s != "" && s[0] == '"'
    ensures var data := pre + (needle + (value + s));
            TextAfter(data, |data|, needle, size) == Some(UpToQuote(value))
  {
    var rest := value + s;
    StrStrFinds(pre, needle + rest, needle);
    DropTwo(pre, needle, rest);
    TextAt(pre + (needle + rest), |pre| + |needle|, value, s, size);
  }

  /** Reading a field back gives its value up to the first quote in it. */
  lemma ExtractAtField(pre: string, key: string, value: string, s: string, size: nat)
    requires Clear(pre, Field(key, value) + s, Key(key)) && |value| < size
    ensures var data := pre + (Field(key, value) + s);
            ExtractStr(data, |data|, key, size) == Some(UpToQuote(value))
  {
    var needle, rest := Key(key) + "\"", "\"," + s;
    assert Field(key, value) + s == needle + (value + rest);
    ClearLonger(pre, Field(key, value) + s, Key(key), "\"");
    TextAfterNeedle(pre, needle, value, rest, size);
  }

  lemma NumberAt(data: string, i: nat, needle: string, n: nat, s: string)
    requires StrStr(data, needle) == Some(i) && i + |needle| <= |data| && data[i + |needle|..] == Decimal(n) + s
    requires n < TWO_64 && s != "" && !IsDigit(s[0]) && i < |data|
    ensures NumberAfter(data, |data|, needle) == n
  {
    NumberRoundTrip(n, s);
  }

  lemma NumberAfterNeedle(pre: string, needle: string, n: nat, s: string)
    requires Clear(pre, needle + (Decimal(n) + s), needle) && n < TWO_64 && s != "" && !IsDigit(s[0])
    ensures var data := pre + (needle + (Decimal(n) + s));
            NumberAfter(data, |data|, needle) == n
  {
    var rest := Decimal(n) + s;
    assert rest != "";
    StrStrFinds(pre, needle + rest, needle);
    DropTwo(pre, needle, rest);
    NumberAt(pre + (needle + rest), |pre|, needle, n, s);
  }

  lemma NumberClear(key: string, n: nat, s: string, other: string)
    requires QuoteFree(key) && QuoteFree(other) && key != other
    requires other != "" && other[0] != ':'
    ensures Clear(Key(key) + Decimal(n) + ",", s, Key(other))
  {
    var f := Key(key) + Decimal(n) + ",";
    var t := f + s;
    DecimalDigits(n);
    assert forall j :: |key| + 3 <= j < |f| - 1 ==> t[j] == Decimal(n)[j - |key| - 3];
    KeyAtWord(t, 0, key, other);
    forall i | 0 <= i < |f| ensures !OccursAt(t, i, Key(other)) {
      KeyStarts(t, i, other);
    }
  }

  // ---- the body ----

  /** Every quote in the text comes right after a backslash. */
  predicate Protected(b: string) {
    forall i :: 0 <= i < |b| && b[i] == '"' ==> i > 0 && b[i - 1] == '\\'
  }

  predicate EndsInBackslash(b: string) { b != "" && b[|b| - 1] == '\\' }

  /** The scan passes a protected text and stops at the quote behind it. */
  lemma {:induction false} ScanStops(data: string, p: nat, b: string, k: nat)
    requires k <= |b| && p + |b| < |data| && data[p..p + |b|] == b && data[p + |b|] == '"'
    requires Protected(b) && !EndsInBackslash(b) && (k < |b| ==> b[k] != '"')
    ensures BodyEnd(data, p + k, |data|) == p + |b|
    decreases |b| - k
  {
    assert forall j :: 0 <= j < |b| ==> data[p + j] == data[p..p + |b|][j] == b[j];
    if k < |b| {
      assert data[p + k] == b[k];
      if k + 1 < |b| { assert data[p + (k + 1)] == b[k + 1]; }
      if b[k] == '\\' && b[k + 1] == '"' {
        ScanStops(data, p, b, k + 2);
      } else {
        ScanStops(data, p, b, k + 1);
      }
    }
  }

  /** A protected text that ends in a backslash hides its closing quote: the scan runs to the end. */
  lemma {:induction false} ScanRunsOver(data: string, p: nat, b: string, k: nat)
    requires k < |b| && p + |b| + 2 == |data| && data[p..] == b + "\"}"
    requires Protected(b) && EndsInBackslash(b) && b[k] != '"'
    ensures BodyEnd(data, p + k, |data|) == |data|
    decreases |b| - k
  {
    var tail := b + "\"}";
    assert forall j :: 0 <= j < |tail| ==> data[p + j] == data[p..][j] == tail[j];
    assert data[p + k] == b[k];
    assert data[p + (k + 1)] == tail[k + 1];
    if k + 1 == |b| {
      assert BodyEnd(data, p + k, |data|) == BodyEnd(data, p + k + 2, |data|);
      assert data[p + (|b| + 1)] == '}';
    } else if b[k] == '\\' && b[k + 1] == '"' {
      ScanRunsOver(data, p, b, k + 2);
    } else {
      ScanRunsOver(data, p, b, k + 1);
    }
  }

  /** What comes back of a body: itself, a part of it, or itself with the end of the text run into it. */
  function BodyBack(b: string): string
  {
    if !Protected(b) then BarePrefix(b)
    else if EndsInBackslash(b) then Cut(b + "\"}", BODY_SIZE) else b
  }

  function BarePrefix(b: string): string
  {
    if b == "" || Protected(b) then b
    else if Protected(b[..|b| - 1]) then b[..|b| - 1] else BarePrefix(b[..|b| - 1])
  }

  lemma {:induction false} BarePrefixStops(b: string)
    requires !Protected(b)
    ensures var r := BarePrefix(b);
            |r| < |b| && r == b[..|r|] && b[|r|] == '"' && Protected(r) && !EndsInBackslash(r)
  {
    var init := b[..|b| - 1];
    if !Protected(init) {
      BarePrefixStops(init);
      assert BarePrefix(b) == BarePrefix(init);
    }
  }

  lemma QuoteBehind(data: string, p: nat, r: string, after: string)
    requires p <= |data| && data[p..] == r + ("\"" + after)
    ensures p + |r| < |data| && data[p..p + |r|] == r && data[p + |r|] == '"'
  {
    assert |data[p..]| == |r| + 1 + |after|;
    assert data[p..p + |r|] == data[p..][..|r|];
    assert data[p + |r|] == data[p..][|r|];
  }

  lemma ScanStopsAtBare(data: string, p: nat, b: string)
    requires p + |b| + 2 == |data| && data[p..] == b + "\"}" && !Protected(b)
    ensures p <= BodyEnd(data, p, |data|) <= |data| && data[p..BodyEnd(data, p, |data|)] == BarePrefix(b)
  {
    BarePrefixStops(b);
    var r := BarePrefix(b);
    assert b + "\"}" == r + ("\"" + (b[|r| + 1..] + "\"}"));
    hide Protected, BarePrefix;
    QuoteBehind(data, p, r, b[|r| + 1..] + "\"}");
    ScanStops(data, p, r, 0);
  }

  lemma ScanStopsAtEnd(data: string, p: nat, b: string)
    requires p + |b| + 2 == |data| && data[p..] == b + "\"}" && Protected(b) && !EndsInBackslash(b)
    ensures p <= BodyEnd(data, p, |data|) <= |data| && data[p..BodyEnd(data, p, |data|)] == b
  {
    assert b + "\"}" == b + ("\"" + "}");
    QuoteBehind(data, p, b, "}");
    ScanStops(data, p, b, 0);
  }

  /** Scanning from the opening of the body, with the end of the message behind it. */
  lemma ScanFromBody(data: string, p: nat, b: string)
    requires p + |b| + 2 == |data| && data[p..] == b + "\"}" && |b| < BODY_SIZE
    ensures p <= BodyEnd(data, p, |data|) <= |data|
    ensures Cut(data[p..BodyEnd(data, p, |data|)], BODY_SIZE) == BodyBack(b)
  {
    hide BodyEnd, BarePrefix;
    if !Protected(b) {
      BarePrefixStops(b);
      ScanStopsAtBare(data, p, b);
    } else if EndsInBackslash(b) {
      ScanRunsOver(data, p, b, 0);
      assert data[p..|data|] == b + "\"}";
    } else {
      ScanStopsAtEnd(data, p, b);
    }
  }

  lemma ExtractAtBody(pre: string, b: string)
    requires Clear(pre, Key("body") + "\"" + b + "\"}", Key("body")) && |b| < BODY_SIZE
    ensures var data := pre + (Key("body") + "\"" + b + "\"}");
            ExtractBody(data, |data|) == BodyBack(b)
  {
    var needle := Key("body") + "\"";
    var rest := needle + b + "\"}";
    ClearLonger(pre, rest, Key("body"), "\"");
    assert needle <= rest;
    StrStrFinds(pre, rest, needle);
    assert (pre + rest)[|pre| + |needle|..] == b + "\"}";
    ScanFromBody(pre + rest, |pre| + |needle|, b);
  }

  /** The bodies that come back: quotes only behind backslashes, and no backslash at the end, unless the
      body fills its buffer so that what runs into it is cut off again. */
  predicate BodySurvives(b: string) {
    Protected(b) && (!EndsInBackslash(b) || |b| == BODY_SIZE - 1)
  }

  lemma BodyBackIsBody(b: string)
    requires |b| < BODY_SIZE
    ensures BodyBack(b) == b <==> BodySurvives(b)
  {
    if !Protected(b) {
      BarePrefixStops(b);
    } else if EndsInBackslash(b) {
      if |b| == BODY_SIZE - 1 {
        assert Cut(b + "\"}", BODY_SIZE) == (b + "\"}")[..|b|] == b;
      } else {
        assert |BodyBack(b)| > |b|;
      }
    }
  }

  // ---- the whole message ----

  predicate Fits(m: Message) {
    && |m.kind| < KIND_SIZE && |m.from| < FROM_SIZE && |m.to| < TO_SIZE && |m.topic| < TOPIC_SIZE
    && |m.body| < BODY_SIZE && m.corr < TWO_64
  }

  function Name(k: nat): string {
    if k == 0 then "type" else if k == 1 then "from" else if k == 2 then "to" else if k == 3 then "topic"
    else if k == 4 then "corr" else "body"
  }

  function Text(m: Message, k: nat): string {
    if k == 0 then m.kind else if k == 1 then m.from else if k == 2 then m.to else m.topic
  }

  function Piece(m: Message, k: nat): string {
    if k < 4 then Field(Name(k), Text(m, k)) else Key("corr") + Decimal(m.corr) + ","
  }

  /** What stands before the k-th key, and everything from it on. */
  function Pre(m: Message, k: nat): string {
    if k == 0 then "{" else Pre(m, k - 1) + Piece(m, k - 1)
  }

  function Post(m: Message, k: nat): string
    decreases 5 - k
  {
    if k >= 5 then Key("body") + "\"" + m.body + "\"}" else Piece(m, k) + Post(m, k + 1)
  }

  predicate FreeBefore(m: Message, k: nat) { forall j :: 0 <= j < k && j < 4 ==> QuoteFree(Text(m, j)) }

  lemma PostUnfolds(m: Message)
    ensures Post(m, 5) == Key("body") + "\"" + m.body + "\"}"
    ensures forall k :: 0 <= k < 5 ==> Post(m, k) == Piece(m, k) + Post(m, k + 1)
    ensures Piece(m, 4) == Key("corr") + Decimal(m.corr) + ","
    ensures Piece(m, 3) == Field("topic", m.topic) && Piece(m, 2) == Field("to", m.to)
    ensures Piece(m, 1) == Field("from", m.from) && Piece(m, 0) == Field("type", m.kind)
  {
  }

  lemma EncodeIsPost(m: Message)
    ensures Encode(m) == "{" + Post(m, 0)
  {
    PostUnfolds(m);
    assert Post(m, 4) == Piece(m, 4) + Post(m, 5);
    assert Post(m, 3) == Piece(m, 3) + Post(m, 4);
    assert Post(m, 2) == Piece(m, 2) + Post(m, 3);
    assert Post(m, 1) == Piece(m, 1) + Post(m, 2);
  }

  lemma {:induction false} PreThenPost(m: Message, k: nat)
    requires k <= 5
    ensures Pre(m, k) + Post(m, k) == "{" + Post(m, 0)
  {
    if k > 0 {
      PreThenPost(m, k - 1);
      Assoc(Pre(m, k - 1), Piece(m, k - 1), Post(m, k));
    }
  }

  lemma EncodeSplits(m: Message, k: nat)
    requires k <= 5
    ensures Encode(m) == Pre(m, k) + Post(m, k)
  {
    EncodeIsPost(m);
    PreThenPost(m, k);
  }

  lemma NamesDiffer(j: nat, own: nat)
    requires j < own <= 5
    ensures Name(j) != Name(own) && QuoteFree(Name(j)) && QuoteFree(Name(own))
    ensures Name(own) != "" && Name(own)[0] != ':' && Name(own)[0] != ','
  {
    assert Name(j)[0] != Name(own)[0] || |Name(j)| != |Name(own)|;
  }

  lemma PieceClear(m: Message, j: nat, own: nat, s: string)
    requires j < own <= 5 && (j < 4 ==> QuoteFree(Text(m, j)))
    ensures Clear(Piece(m, j), s, Key(Name(own)))
  {
    NamesDiffer(j, own);
    if j < 4 {
      FieldClear(Name(j), Text(m, j), s, Name(own));
    } else {
      NumberClear(Name(4), m.corr, s, Name(own));
    }
  }

  /** Every search finds its own key first: nothing before the k-th piece looks like the k-th key. */
  lemma {:induction false} KeyComesFirst(m: Message, k: nat, own: nat)
    requires k <= own <= 5 && FreeBefore(m, k)
    ensures Clear(Pre(m, k), Post(m, k), Key(Name(own)))
  {
    if k == 0 {
      var t := "{" + Post(m, 0);
      KeyStarts(t, 0, Name(own));
    } else {
      KeyComesFirst(m, k - 1, own);
      PieceClear(m, k - 1, own, Post(m, k));
      ClearConcat(Pre(m, k - 1), Piece(m, k - 1), Post(m, k), Key(Name(own)));
    }
  }

  function SizeOf(k: nat): nat {
    if k == 0 then KIND_SIZE else if k == 1 then FROM_SIZE else if k == 2 then TO_SIZE else TOPIC_SIZE
  }

  /** The k-th text as `Decode` reads it from the encoding. */
  function TextBack(m: Message, k: nat): string {
    OrEmpty(ExtractStr(Encode(m), |Encode(m)|, Name(k), SizeOf(k)))
  }

  lemma FieldBack(m: Message, k: nat)
    requires Fits(m) && k < 4 && FreeBefore(m, k)
    ensures TextBack(m, k) == UpToQuote(Text(m, k))
  {
    EncodeSplits(m, k);
    KeyComesFirst(m, k, k);
    ExtractAtField(Pre(m, k), Name(k), Text(m, k), Post(m, k + 1), SizeOf(k));
  }

  lemma NumberUnfolds(m: Message)
    ensures Post(m, 4) == Key("corr") + (Decimal(m.corr) + ("," + Post(m, 5)))
  {
    PostUnfolds(m);
    assert Post(m, 4) == Piece(m, 4) + Post(m, 5);
    Assoc(Key("corr") + Decimal(m.corr), ",", Post(m, 5));
    Assoc(Key("corr"), Decimal(m.corr), "," + Post(m, 5));
  }

  lemma NumberBack(m: Message)
    requires Fits(m) && FreeBefore(m, 4)
    ensures ExtractU64(Encode(m), |Encode(m)|, "corr") == m.corr
  {
    hide Pre, Post, Encode, Decimal, Key, Clear, NumberAfter;
    EncodeSplits(m, 4);
    KeyComesFirst(m, 4, 4);
    NumberUnfolds(m);
    var s := "," + Post(m, 5);
    NumberAfterNeedle(Pre(m, 4), Key("corr"), m.corr, s);
  }

  lemma BodyComesBack(m: Message)
    requires Fits(m) && FreeBefore(m, 4)
    ensures ExtractBody(Encode(m), |Encode(m)|) == BodyBack(m.body)
  {
    EncodeSplits(m, 5);
    KeyComesFirst(m, 5, 5);
    PostUnfolds(m);
    ExtractAtBody(Pre(m, 5), m.body);
  }

  /** The first field with a quote in it comes back shorter than it was. */
  lemma {:induction false} QuoteInFieldLost(m: Message, k: nat)
    requires Fits(m) && k < 4 && FreeBefore(m, k) && !FreeBefore(m, 4)
    ensures exists j :: k <= j < 4 && !QuoteFree(Text(m, j)) && FreeBefore(m, j)
    decreases 4 - k
  {
    if QuoteFree(Text(m, k)) {
      assert FreeBefore(m, k + 1);
      QuoteInFieldLost(m, k + 1);
    }
  }

  lemma FieldsBack(m: Message)
    requires Fits(m)
    ensures FreeBefore(m, 4) <==> forall k :: 0 <= k < 4 ==> TextBack(m, k) == Text(m, k)
  {
    if FreeBefore(m, 4) {
      forall k | 0 <= k < 4 ensures TextBack(m, k) == Text(m, k) {
        FieldBack(m, k);
        UpToQuoteIsAll(Text(m, k));
      }
    } else {
      QuoteInFieldLost(m, 0);
      var k :| 0 <= k < 4 && !QuoteFree(Text(m, k)) && FreeBefore(m, k);
      FieldBack(m, k);
      UpToQuoteIsAll(Text(m, k));
    }
  }

  lemma DecodeReads(m: Message)
    ensures var d := Decode(Encode(m), |Encode(m)|);
            && d.kind == TextBack(m, 0) && d.from == TextBack(m, 1) && d.to == TextBack(m, 2)
            && d.topic == TextBack(m, 3)
            && d.corr == ExtractU64(Encode(m), |Encode(m)|, "corr") && d.body == ExtractBody(Encode(m), |Encode(m)|)
  {
  }

  /** All four texts come back exactly when none of them holds a quote. */
  lemma TextsBack(m: Message)
    requires Fits(m)
    ensures TextBack(m, 0) == m.kind && TextBack(m, 1) == m.from && TextBack(m, 2) == m.to && TextBack(m, 3) == m.topic
            <==> FreeBefore(m, 4)
    ensures FreeBefore(m, 4) <==> QuoteFree(m.kind) && QuoteFree(m.from) && QuoteFree(m.to) && QuoteFree(m.topic)
  {
    hide TextBack;
    FieldsBack(m);
    assert Text(m, 0) == m.kind && Text(m, 1) == m.from && Text(m, 2) == m.to && Text(m, 3) == m.topic;
  }

  /** Decoding what was encoded gives the message back exactly when its first four texts hold no quote and
      its body survives the scan. */
  lemma RoundTrip(m: Message)
    requires Fits(m)
    ensures Decode(Encode(m), |Encode(m)|) == m <==>
            QuoteFree(m.kind) && QuoteFree(m.from) && QuoteFree(m.to) && QuoteFree(m.topic) && BodySurvives(m.body)
  {
    DecodeReads(m);
    TextsBack(m);
    if FreeBefore(m, 4) {
      NumberBack(m);
      BodyComesBack(m);
      BodyBackIsBody(m.body);
    }
  }
}
