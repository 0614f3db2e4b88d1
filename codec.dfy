/**
 * `dumps` / `loads`: a self-describing, length-prefixed image of a frozen
 * database. The layout is
 *
 *   image  = flag count entry*        flag is 'C' (compressed) or 'U'
 *   entry  = str count str*           a key, then its values
 *   str    = count chars              the count is the length of chars
 *   count  = digit+ ':'               decimal
 *
 * The compression flag is recorded in the header so that loading needs no
 * argument; the value blocks themselves are stored as they are.
 */
module Codec {
  import opened Wrappers
  import opened Seqs
  import opened DiscoDb

  type Image = seq<char>

  // ---------------------------------------------------------------------------
  // Counts

  predicate IsDigit(c: char) {
    '0' <= c <= '9'
  }

  function DigitChar(d: nat): (c: char)
    requires d < 10
    ensures IsDigit(c)
  {
    ['0', '1', '2', '3', '4', '5', '6', '7', '8', '9'][d]
  }

  /** The value of a decimal digit; DecodeCount only applies it to digits. */
  function DigitValue(c: char): (d: nat)
    ensures d < 10
  {
    if IsDigit(c) then (c as int - '0' as int) as nat else 0
  }

  /** Decimal digits of `n`, most significant first. */
  function Decimal(n: nat): (ds: seq<char>)
    ensures ds != [] && forall i :: 0 <= i < |ds| ==> IsDigit(ds[i])
  {
    if n < 10 then [DigitChar(n)] else Decimal(n / 10) + [DigitChar(n % 10)]
  }

  /** The number a run of decimal digits stands for. */
  function DecimalValue(ds: seq<char>): nat {
    if ds == [] then 0 else 10 * DecimalValue(ds[..|ds| - 1]) + DigitValue(ds[|ds| - 1])
  }

  /** Length of the run of digits `s` starts with. */
  function DigitRun(s: seq<char>): (n: nat)
    ensures n <= |s|
    ensures n < |s| ==> !IsDigit(s[n])
  {
    if s != [] && IsDigit(s[0]) then 1 + DigitRun(s[1..]) else 0
  }

  function EncodeCount(n: nat): Image {
    Decimal(n) + [':']
  }

  function DecodeCount(s: Image): Result<(nat, Image)> {
    var d := DigitRun(s);
    if 0 < d < |s| && s[d] == ':' then Ok((DecimalValue(s[..d]), s[d + 1..]))
    else Err(SerializationError)
  }

  // ---------------------------------------------------------------------------
  // Sequences of items

  /** Reads `n` items off the front of `s` with `step`, one after the other. */
  function Repeat<T>(step: Image -> Result<(T, Image)>, s: Image, n: nat): Result<(seq<T>, Image)>
    decreases n
  {
    if n == 0 then Ok(([], s))
    else
      var first := step(s);
      if first.Err? then Err(first.error)
      else
        var more := Repeat(step, first.value.1, n - 1);
        if more.Err? then Err(more.error)
        else Ok(([first.value.0] + more.value.0, more.value.1))
  }

  /** The images of `xs`, written one after the other. */
  function Concat<T>(enc: T -> Image, xs: seq<T>): Image {
    if xs == [] then [] else enc(xs[0]) + Concat(enc, xs[1..])
  }

  /** `step` reads back exactly what `enc` writes, whatever follows it. */
  ghost predicate Reads<T(!new)>(step: Image -> Result<(T, Image)>, enc: T -> Image) {
    forall x: T, rest: Image :: step(enc(x) + rest) == Ok((x, rest))
  }

  /** Bytes appended after what `step` reads do not change how it reads. */
  ghost predicate PrefixStable<T>(step: Image -> Result<(T, Image)>) {
    forall s: Image, x: Image {:trigger step(s + x)} ::
      step(s).Ok? ==> step(s + x) == Ok((step(s).value.0, step(s).value.1 + x))
  }

  // ---------------------------------------------------------------------------
  // Strings, entries, images

  function EncodeStr(s: string): Image {
    EncodeCount(|s|) + s
  }

  function DecodeStr(s: Image): Result<(string, Image)> {
    var c := DecodeCount(s);
    if c.Err? then Err(c.error)
    else if c.value.0 <= |c.value.1| then Ok((c.value.1[..c.value.0], c.value.1[c.value.0..]))
    else Err(SerializationError)
  }

  /** A key, the number of its values, then the values. */
  function EncodeEntry(e: (Key, seq<Value>)): Image {
    EncodeStr(e.0) + EncodeCount(|e.1|) + Concat(EncodeStr, e.1)
  }

  function DecodeEntry(s: Image): Result<((Key, seq<Value>), Image)> {
    var k := DecodeStr(s);
    if k.Err? then Err(k.error)
    else
      var m := DecodeCount(k.value.1);
      if m.Err? then Err(m.error)
      else
        var vs := Repeat(DecodeStr, m.value.1, m.value.0);
        if vs.Err? then Err(vs.error)
        else Ok(((k.value.0, vs.value.0), vs.value.1))
  }

  function Flag(compressed: bool): char {
    if compressed then 'C' else 'U'
  }

  /** `db.dumps()`. */
  function Encode(db: DiscoDB): (r: Image)
    requires Valid(db)
    ensures r != [] && (r[0] == 'C' <==> db.compressed) && (r[0] == 'U' <==> !db.compressed)
    ensures DecodeCount(r[1..]).Ok? && DecodeCount(r[1..]).value.0 == |db.keys|
  {
    var entries := Concat(EncodeEntry, Items(db));
    var r := [Flag(db.compressed)] + EncodeCount(|db.keys|) + entries;
    assert r[1..] == EncodeCount(|db.keys|) + entries;
    CountRoundTrip(|db.keys|, entries);
    r
  }

  /** The flag and the entries of one image, read off the front of `s`. */
  function ReadImage(s: Image): Result<((bool, seq<(Key, seq<Value>)>), Image)> {
    if s == [] || (s[0] != 'C' && s[0] != 'U') then Err(SerializationError)
    else
      var n := DecodeCount(s[1..]);
      if n.Err? then Err(SerializationError)
      else
        var es := Repeat(DecodeEntry, n.value.1, n.value.0);
        if es.Err? then Err(SerializationError)
        else Ok(((s[0] == 'C', es.value.0), es.value.1))
  }

  /** Reads one image off the front of `s`; a repeated key or a bad flag is corrupt. */
  function DecodePrefix(s: Image): (r: Result<(DiscoDB, Image)>)
    ensures r.Ok? ==> Valid(r.value.0)
    ensures r.Err? ==> r.error == SerializationError
  {
    var read := ReadImage(s);
    if read.Err? then Err(SerializationError)
    else
      var items := read.value.0.1;
      if Distinct(Firsts(items)) then
        ToMapDistinct(items);
        Ok((DiscoDB(Firsts(items), ToMap(items), read.value.0.0), read.value.1))
      else Err(SerializationError)
  }

  /** `DiscoDB.loads(s)`: all or nothing; trailing bytes make the image corrupt. */
  function Decode(s: Image): (r: Result<DiscoDB>)
    ensures r.Ok? ==> Valid(r.value)
    ensures r.Err? ==> r.error == SerializationError
  {
    var p := DecodePrefix(s);
    if p.Err? then Err(p.error)
    else if p.value.1 == [] then Ok(p.value.0)
    else Err(SerializationError)
  }

  // ---------------------------------------------------------------------------
  // Round trips

  lemma {:induction false} DecimalRoundTrip(n: nat)
    ensures DecimalValue(Decimal(n)) == n
  {
    if n >= 10 {
      DecimalRoundTrip(n / 10);
      var ds := Decimal(n);
      assert ds[..|ds| - 1] == Decimal(n / 10);
      assert DigitValue(DigitChar(n % 10)) == n % 10;
    } else {
      assert DigitValue(DigitChar(n)) == n;
    }
  }

  lemma {:induction false} DigitRunOfDigits(ds: seq<char>, t: seq<char>)
    requires forall i :: 0 <= i < |ds| ==> IsDigit(ds[i])
    ensures DigitRun(ds + t) == |ds| + DigitRun(t)
  {
    if ds != [] {
      assert (ds + t)[1..] == ds[1..] + t;
      DigitRunOfDigits(ds[1..], t);
    } else {
      assert ds + t == t;
    }
  }

  lemma CountRoundTrip(n: nat, rest: Image)
    ensures DecodeCount(EncodeCount(n) + rest) == Ok((n, rest))
  {
    var ds := Decimal(n);
    var s := EncodeCount(n) + rest;
    assert s == ds + ([':'] + rest);
    DigitRunOfDigits(ds, [':'] + rest);
    assert s[..|ds|] == ds;
    assert s[|ds| + 1..] == rest;
    DecimalRoundTrip(n);
  }

  /** Whatever `step` reads back from `enc`, it reads back from a run of them. */
  lemma {:induction false} RepeatRoundTrip<T(!new)>(step: Image -> Result<(T, Image)>, enc: T -> Image, xs: seq<T>, rest: Image)
    requires Reads(step, enc)
    ensures Repeat(step, Concat(enc, xs) + rest, |xs|) == Ok((xs, rest))
  {
    if xs != [] {
      var tail := Concat(enc, xs[1..]) + rest;
      assert Concat(enc, xs) + rest == enc(xs[0]) + tail;
      assert step(enc(xs[0]) + tail) == Ok((xs[0], tail));
      RepeatRoundTrip(step, enc, xs[1..], rest);
      assert [xs[0]] + xs[1..] == xs;
    } else {
      assert Concat(enc, xs) + rest == rest;
    }
  }

  lemma StrRoundTrip(v: string, rest: Image)
    ensures DecodeStr(EncodeStr(v) + rest) == Ok((v, rest))
  {
    assert EncodeStr(v) + rest == EncodeCount(|v|) + (v + rest);
    CountRoundTrip(|v|, v + rest);
    assert (v + rest)[..|v|] == v;
    assert (v + rest)[|v|..] == rest;
  }

  lemma StrReads()
    ensures Reads(DecodeStr, EncodeStr)
  {
    forall v: string, rest: Image
      ensures DecodeStr(EncodeStr(v) + rest) == Ok((v, rest))
    {
      StrRoundTrip(v, rest);
    }
  }

  lemma EntryRoundTrip(e: (Key, seq<Value>), rest: Image)
    ensures DecodeEntry(EncodeEntry(e) + rest) == Ok((e, rest))
  {
    var tail := Concat(EncodeStr, e.1) + rest;
    assert EncodeEntry(e) + rest == EncodeStr(e.0) + (EncodeCount(|e.1|) + tail);
    StrRoundTrip(e.0, EncodeCount(|e.1|) + tail);
    CountRoundTrip(|e.1|, tail);
    StrReads();
    RepeatRoundTrip(DecodeStr, EncodeStr, e.1, rest);
  }

  lemma EntryReads()
    ensures Reads(DecodeEntry, EncodeEntry)
  {
    forall e: (Key, seq<Value>), rest: Image
      ensures DecodeEntry(EncodeEntry(e) + rest) == Ok((e, rest))
    {
      EntryRoundTrip(e, rest);
    }
  }

  /** The entries of a database decode back to themselves, whatever follows them. */
  lemma EntriesRoundTrip(items: seq<(Key, seq<Value>)>, rest: Image)
    ensures Repeat(DecodeEntry, Concat(EncodeEntry, items) + rest, |items|) == Ok((items, rest))
  {
    EntryReads();
    RepeatRoundTrip(DecodeEntry, EncodeEntry, items, rest);
  }

  /** A flag, then a count naming how many encoded entries follow, reads back as the flag and the entries. */
  lemma ReadParts(s: Image, compressed: bool, items: seq<(Key, seq<Value>)>, rest: Image)
    requires s != [] && s[0] == Flag(compressed)
    requires DecodeCount(s[1..]) == Ok((|items|, Concat(EncodeEntry, items) + rest))
    ensures ReadImage(s) == Ok(((compressed, items), rest))
  {
    EntriesRoundTrip(items, rest);
  }

  lemma ReadRoundTrip(db: DiscoDB, rest: Image)
    requires Valid(db)
    ensures ReadImage(Encode(db) + rest) == Ok(((db.compressed, Items(db)), rest))
  {
    var entries := Concat(EncodeEntry, Items(db));
    var s := Encode(db) + rest;
    assert s[0] == Flag(db.compressed);
    assert s[1..] == EncodeCount(|db.keys|) + (entries + rest);
    CountRoundTrip(|db.keys|, entries + rest);
    ReadParts(s, db.compressed, Items(db), rest);
  }

  /** Loading an image read off the front of a longer buffer leaves the rest untouched. */
  lemma PrefixRoundTrip(db: DiscoDB, rest: Image)
    requires Valid(db)
    ensures DecodePrefix(Encode(db) + rest) == Ok((db, rest))
  {
    ReadRoundTrip(db, rest);
    ItemsDict(db);
  }

  /** `loads(dumps(D))` is D itself, compression flag included. */
  lemma RoundTrip(db: DiscoDB)
    requires Valid(db)
    ensures Decode(Encode(db)) == Ok(db)
  {
    PrefixRoundTrip(db, []);
    assert Encode(db) + [] == Encode(db);
  }

  /** `loads(D.dumps()).dumps() == D.dumps()`. */
  lemma DumpsLoadsDumps(db: DiscoDB)
    requires Valid(db)
    ensures Decode(Encode(db)).Ok?
    ensures Encode(Decode(Encode(db)).value) == Encode(db)
  {
    RoundTrip(db);
  }

  // ---------------------------------------------------------------------------
  // Truncated images

  lemma {:induction false} DigitRunExtend(s: Image, x: Image)
    requires DigitRun(s) < |s|
    ensures DigitRun(s + x) == DigitRun(s)
  {
    if IsDigit(s[0]) {
      assert (s + x)[1..] == s[1..] + x;
      DigitRunExtend(s[1..], x);
    }
  }

  lemma CountExtend(s: Image, x: Image)
    requires DecodeCount(s).Ok?
    ensures DecodeCount(s + x) == Ok((DecodeCount(s).value.0, DecodeCount(s).value.1 + x))
  {
    DigitRunExtend(s, x);
    var d := DigitRun(s);
    assert (s + x)[..d] == s[..d];
    assert (s + x)[d + 1..] == s[d + 1..] + x;
  }

  /** A run of items read by a prefix-stable `step` is itself prefix-stable. */
  lemma {:induction false} RepeatExtend<T>(step: Image -> Result<(T, Image)>, s: Image, n: nat, x: Image)
    requires PrefixStable(step) && Repeat(step, s, n).Ok?
    ensures Repeat(step, s + x, n) == Ok((Repeat(step, s, n).value.0, Repeat(step, s, n).value.1 + x))
    decreases n
  {
    if n > 0 {
      assert step(s + x) == Ok((step(s).value.0, step(s).value.1 + x));
      RepeatExtend(step, step(s).value.1, n - 1, x);
    }
  }

  lemma StrExtend(s: Image, x: Image)
    requires DecodeStr(s).Ok?
    ensures DecodeStr(s + x) == Ok((DecodeStr(s).value.0, DecodeStr(s).value.1 + x))
  {
    CountExtend(s, x);
    var n := DecodeCount(s).value.0;
    var rest := DecodeCount(s).value.1;
    assert (rest + x)[..n] == rest[..n];
    assert (rest + x)[n..] == rest[n..] + x;
  }

  lemma StrStable()
    ensures PrefixStable(DecodeStr)
  {
    forall s: Image, x: Image | DecodeStr(s).Ok?
      ensures DecodeStr(s + x) == Ok((DecodeStr(s).value.0, DecodeStr(s).value.1 + x))
    {
      StrExtend(s, x);
    }
  }

  lemma EntryExtend(s: Image, x: Image)
    requires DecodeEntry(s).Ok?
    ensures DecodeEntry(s + x) == Ok((DecodeEntry(s).value.0, DecodeEntry(s).value.1 + x))
  {
    StrExtend(s, x);
    var rest := DecodeStr(s).value.1;
    CountExtend(rest, x);
    StrStable();
    RepeatExtend(DecodeStr, DecodeCount(rest).value.1, DecodeCount(rest).value.0, x);
  }

  lemma EntryStable()
    ensures PrefixStable(DecodeEntry)
  {
    forall s: Image, x: Image | DecodeEntry(s).Ok?
      ensures DecodeEntry(s + x) == Ok((DecodeEntry(s).value.0, DecodeEntry(s).value.1 + x))
    {
      EntryExtend(s, x);
    }
  }

  lemma ReadExtend(s: Image, x: Image)
    requires ReadImage(s).Ok?
    ensures ReadImage(s + x) == Ok((ReadImage(s).value.0, ReadImage(s).value.1 + x))
  {
    assert (s + x)[1..] == s[1..] + x;
    CountExtend(s[1..], x);
    EntryStable();
    RepeatExtend(DecodeEntry, DecodeCount(s[1..]).value.1, DecodeCount(s[1..]).value.0, x);
  }

  /** Bytes appended after an image do not change how the image reads. */
  lemma PrefixExtend(s: Image, x: Image)
    requires DecodePrefix(s).Ok?
    ensures DecodePrefix(s + x) == Ok((DecodePrefix(s).value.0, DecodePrefix(s).value.1 + x))
  {
    ReadExtend(s, x);
  }

  lemma LoadedIsRead(s: Image)
    requires Decode(s).Ok?
    ensures ReadImage(s).Ok? && ReadImage(s).value.1 == []
  {
  }

  /** Nothing that loads is a proper prefix of something else that loads. */
  lemma LoadedImageIsMaximal(t: Image, u: Image)
    requires Decode(t).Ok? && u != []
    ensures Decode(t + u) == Err(SerializationError)
  {
    LoadedIsRead(t);
    ReadExtend(t, u);
    assert [] + u == u;
  }

  /** Cutting a loadable buffer short leaves one that does not load. */
  lemma ProperPrefixRejected(s: Image, m: nat)
    requires Decode(s).Ok? && m < |s|
    ensures Decode(s[..m]) == Err(SerializationError)
  {
    assert s[..m] + s[m..] == s;
    assert [] + s[m..] != [];
    LoadedIsRead(s);
    if Decode(s[..m]).Ok? {
      LoadedIsRead(s[..m]);
      ReadExtend(s[..m], s[m..]);
    }
  }

  /** A truncated image is refused with SerializationError, never half-loaded. */
  lemma TruncatedImageRejected(db: DiscoDB, m: nat)
    requires Valid(db) && m < |Encode(db)|
    ensures Decode(Encode(db)[..m]) == Err(SerializationError)
  {
    RoundTrip(db);
    ProperPrefixRejected(Encode(db), m);
  }

  /** Bytes after a complete image make the buffer corrupt. */
  lemma TrailingDataRejected(db: DiscoDB, x: Image)
    requires Valid(db) && x != []
    ensures Decode(Encode(db) + x) == Err(SerializationError)
  {
    PrefixRoundTrip(db, x);
  }
}
