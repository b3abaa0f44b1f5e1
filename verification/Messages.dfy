/**
 The byte strings the cluster hashes and signs, and why no two of them can be confused: the
 derivation message, the response messages and the request messages.
 */
module Messages {

  type Byte = b: int | 0 <= b < 256
  type Bytes = seq<Byte>

  const COLON: Byte := 58
  const MINUS: Byte := 45

  function Ascii(s: string): (bytes: Bytes)
    ensures |bytes| == |s| && forall i :: 0 <= i < |s| ==> bytes[i] == s[i] as int % 256
  {
    if s == "" then [] else [s[0] as int % 256] + Ascii(s[1..])
  }

  // ---- Fixed-width big-endian integers ----

  function Pow256(w: nat): (n: nat)
    ensures n >= 1
  {
    if w == 0 then 1 else 256 * Pow256(w - 1)
  }

  /** The `w` low bytes of `n`, most significant first. */
  function BigEndian(n: nat, w: nat): (bytes: Bytes)
    ensures |bytes| == w
  {
    if w == 0 then [] else BigEndian(n / 256, w - 1) + [n % 256]
  }

  lemma {:induction false} BigEndianIsInjective(a: nat, b: nat, w: nat)
    requires a < Pow256(w) && b < Pow256(w) && BigEndian(a, w) == BigEndian(b, w)
    ensures a == b
  {
    if w > 0 {
      var x, y := BigEndian(a, w), BigEndian(b, w);
      assert x[w - 1] == a % 256 && y[w - 1] == b % 256;
      assert x[..w - 1] == BigEndian(a / 256, w - 1) && y[..w - 1] == BigEndian(b / 256, w - 1);
      BigEndianIsInjective(a / 256, b / 256, w - 1);
    }
  }

  /** The number that big-endian bytes stand for. */
  function Number(bytes: Bytes): nat {
    if bytes == [] then 0 else 256 * Number(bytes[..|bytes| - 1]) + bytes[|bytes| - 1]
  }

  lemma {:induction false} NumberOfBigEndian(n: nat, w: nat)
    requires n < Pow256(w)
    ensures Number(BigEndian(n, w)) == n
  {
    if w > 0 {
      NumberOfBigEndian(n / 256, w - 1);
      assert BigEndian(n, w)[..w - 1] == BigEndian(n / 256, w - 1);
    }
  }

  // ---- Splitting concatenations ----

  lemma SplitFixed(a: Bytes, b: Bytes, a': Bytes, b': Bytes)
    requires a + b == a' + b' && |a| == |a'|
    ensures a == a' && b == b'
  {
    assert a == (a + b)[..|a|] && b == (a + b)[|a|..];
    assert a' == (a' + b')[..|a'|] && b' == (a' + b')[|a'|..];
  }

  predicate ColonFree(a: Bytes) { COLON !in a }

  /** A colon-free word before the first colon is determined by the whole. */
  lemma SplitAtFirstColon(a: Bytes, b: Bytes, a': Bytes, b': Bytes)
    requires ColonFree(a) && ColonFree(a') && a + [COLON] + b == a' + [COLON] + b'
    ensures a == a' && b == b'
  {
    var whole := a + [COLON] + b;
    NotShorter(a, b, a', b');
    NotShorter(a', b', a, b);
    SplitFixed(a + [COLON], b, a' + [COLON], b');
    SplitFixed(a, [COLON], a', [COLON]);
  }

  lemma NotShorter(a: Bytes, b: Bytes, a': Bytes, b': Bytes)
    requires ColonFree(a') && a + [COLON] + b == a' + [COLON] + b'
    ensures |a| >= |a'|
  {
    var whole := a + [COLON] + b;
    assert whole[|a|] == COLON;
    assert forall i :: 0 <= i < |a'| ==> whole[i] == a'[i];
  }

  /** A colon-free word after the last colon is determined by the whole. */
  lemma SplitAtLastColon(a: Bytes, b: Bytes, a': Bytes, b': Bytes)
    requires ColonFree(b) && ColonFree(b') && a + [COLON] + b == a' + [COLON] + b'
    ensures a == a' && b == b'
  {
    NotLonger(a, b, a', b');
    NotLonger(a', b', a, b);
    SplitFixed(a + [COLON], b, a' + [COLON], b');
    SplitFixed(a, [COLON], a', [COLON]);
  }

  lemma NotLonger(a: Bytes, b: Bytes, a': Bytes, b': Bytes)
    requires ColonFree(b') && a + [COLON] + b == a' + [COLON] + b'
    ensures |a| <= |a'|
  {
    var whole := a' + [COLON] + b';
    assert whole[|a|] == (a + [COLON] + b)[|a|] == COLON;
    assert forall i :: |a'| < i < |whole| ==> whole[i] == b'[i - |a'| - 1];
  }

  // ---- The derivation message ----

  const DPRF_DST := "0g-kms:dprf:v1"

  /** Length-prefixed binding of the application id and the caller's material. */
  function DprfMessage(app: Bytes, material: Bytes): Bytes {
    Ascii(DPRF_DST) + (BigEndian(|app|, 8) + (app + (BigEndian(|material|, 8) + material)))
  }

  /** Namespaces cannot collide: the message determines the application id and the material. */
  lemma DprfMessageIsInjective(app: Bytes, material: Bytes, app': Bytes, material': Bytes)
    requires |app| < Pow256(8) && |app'| < Pow256(8)
    requires DprfMessage(app, material) == DprfMessage(app', material')
    ensures app == app' && material == material'
  {
    var tail, tail' := BigEndian(|material|, 8) + material, BigEndian(|material'|, 8) + material';
    SplitFixed(Ascii(DPRF_DST), BigEndian(|app|, 8) + (app + tail),
               Ascii(DPRF_DST), BigEndian(|app'|, 8) + (app' + tail'));
    SplitFixed(BigEndian(|app|, 8), app + tail, BigEndian(|app'|, 8), app' + tail');
    BigEndianIsInjective(|app|, |app'|, 8);
    SplitFixed(app, tail, app', tail');
    SplitFixed(BigEndian(|material|, 8), material, BigEndian(|material'|, 8), material');
  }

  /** From position `i` on, `x` is `a` followed by `b`. */
  lemma Piece(x: Bytes, i: nat, a: Bytes, b: Bytes)
    requires i <= |x| && x[i..] == a + b
    ensures i + |a| <= |x| && x[i..i + |a|] == a && x[i + |a|..] == b
  {
    assert x[i..i + |a|] == x[i..][..|a|];
    assert x[i + |a|..] == x[i..][|a|..];
  }

  /** The parts of a concatenation are its slices. */
  lemma FiveParts(a: Bytes, b: Bytes, c: Bytes, d: Bytes, e: Bytes)
    ensures
      var x := a + (b + (c + (d + e)));
      var i, j, k, l := |a|, |a| + |b|, |a| + |b| + |c|, |a| + |b| + |c| + |d|;
      && |x| == l + |e| && x[..i] == a && x[i..j] == b && x[j..k] == c && x[k..l] == d && x[l..] == e
  {
    var x := a + (b + (c + (d + e)));
    assert x[0..] == x && x[0..|a|] == x[..|a|];
    Piece(x, 0, a, b + (c + (d + e)));
    Piece(x, |a|, b, c + (d + e));
    Piece(x, |a| + |b|, c, d + e);
    Piece(x, |a| + |b| + |c|, d, e);
  }

  /**
   The layout, read back: the tag, the length of the application id in eight bytes, the id, the length of
   the material in eight bytes, the material.
   */
  lemma {:induction false} DprfMessageReads(app: Bytes, material: Bytes)
    requires |app| < Pow256(8) && |material| < Pow256(8)
    ensures
      var msg, n := DprfMessage(app, material), |app|;
      && |msg| == 30 + n + |material| && msg[..14] == Ascii("0g-kms:dprf:v1")
      && Number(msg[14..22]) == n && msg[22..22 + n] == app
      && Number(msg[22 + n..30 + n]) == |material| && msg[30 + n..] == material
  {
    NumberOfBigEndian(|app|, 8);
    NumberOfBigEndian(|material|, 8);
    FiveParts(Ascii(DPRF_DST), BigEndian(|app|, 8), app, BigEndian(|material|, 8), material);
  }

  // ---- Signed responses ----

  function ResponseMsg(rpc: Bytes, caller: Bytes, meta: Bytes, ciphertext: Bytes): Bytes {
    Ascii("kms-resp:") + (rpc + [COLON] + (caller + (meta + ciphertext)))
  }

  function PartialSigningMsg(caller: Bytes, index: nat, epoch: nat, ciphertext: Bytes): Bytes {
    ResponseMsg(Ascii("GetDprfPartial"), caller, BigEndian(index, 4) + BigEndian(epoch, 8), ciphertext)
  }

  function ShardSigningMsg(rpc: Bytes, caller: Bytes, index: nat, ciphertext: Bytes): Bytes {
    ResponseMsg(rpc, caller, BigEndian(index, 4), ciphertext)
  }

  /** A response determines its method and caller, and its metadata and ciphertext when their split is known. */
  lemma ResponseIsInjective(rpc: Bytes, caller: Bytes, meta: Bytes, ct: Bytes,
                            rpc': Bytes, caller': Bytes, meta': Bytes, ct': Bytes)
    requires ColonFree(rpc) && ColonFree(rpc') && |caller| == |caller'|
    requires ResponseMsg(rpc, caller, meta, ct) == ResponseMsg(rpc', caller', meta', ct')
    ensures rpc == rpc' && caller == caller' && meta + ct == meta' + ct'
    ensures |meta| == |meta'| ==> meta == meta' && ct == ct'
  {
    var tail, tail' := caller + (meta + ct), caller' + (meta' + ct');
    SplitFixed(Ascii("kms-resp:"), rpc + [COLON] + tail, Ascii("kms-resp:"), rpc' + [COLON] + tail');
    SplitAtFirstColon(rpc, tail, rpc', tail');
    SplitFixed(caller, meta + ct, caller', meta' + ct');
    if |meta| == |meta'| { SplitFixed(meta, ct, meta', ct'); }
  }

  /** A signed partial determines caller, shard index, epoch and ciphertext. */
  lemma PartialResponseIsInjective(caller: Bytes, index: nat, epoch: nat, ct: Bytes,
                                   caller': Bytes, index': nat, epoch': nat, ct': Bytes)
    requires |caller| == |caller'| && index < Pow256(4) && index' < Pow256(4) && epoch < Pow256(8) && epoch' < Pow256(8)
    requires PartialSigningMsg(caller, index, epoch, ct) == PartialSigningMsg(caller', index', epoch', ct')
    ensures caller == caller' && index == index' && epoch == epoch' && ct == ct'
  {
    MethodNamesAreColonFree();
    var rpc := Ascii("GetDprfPartial");
    ResponseIsInjective(rpc, caller, BigEndian(index, 4) + BigEndian(epoch, 8), ct,
                        rpc, caller', BigEndian(index', 4) + BigEndian(epoch', 8), ct');
    SplitFixed(BigEndian(index, 4), BigEndian(epoch, 8), BigEndian(index', 4), BigEndian(epoch', 8));
    BigEndianIsInjective(index, index', 4);
    BigEndianIsInjective(epoch, epoch', 8);
  }

  lemma MethodNamesAreColonFree()
    ensures ColonFree(Ascii("GetDprfPartial"))
  {
    LettersAreColonFree("GetDprfPartial");
  }

  lemma {:induction false} LettersAreColonFree(s: string)
    requires forall i :: 0 <= i < |s| ==> 'A' <= s[i] <= 'z'
    ensures ColonFree(Ascii(s))
  {
    if s != "" {
      LettersAreColonFree(s[1..]);
      assert 65 <= s[0] as int <= 122;
    }
  }

  /** A signed shard determines method, caller, index and ciphertext, and is never a signed partial. */
  lemma ShardResponseIsInjective(rpc: Bytes, caller: Bytes, index: nat, ct: Bytes,
                                 rpc': Bytes, caller': Bytes, index': nat, ct': Bytes)
    requires ColonFree(rpc) && ColonFree(rpc') && |caller| == |caller'| && index < Pow256(4) && index' < Pow256(4)
    requires ShardSigningMsg(rpc, caller, index, ct) == ShardSigningMsg(rpc', caller', index', ct')
    ensures rpc == rpc' && caller == caller' && index == index' && ct == ct'
  {
    ResponseIsInjective(rpc, caller, BigEndian(index, 4), ct, rpc', caller', BigEndian(index', 4), ct');
    BigEndianIsInjective(index, index', 4);
  }

  lemma ShardIsNotAPartial(rpc: Bytes, caller: Bytes, index: nat, ct: Bytes,
                           caller': Bytes, index': nat, epoch': nat, ct': Bytes)
    requires ColonFree(rpc) && rpc != Ascii("GetDprfPartial") && |caller| == |caller'|
    ensures ShardSigningMsg(rpc, caller, index, ct) != PartialSigningMsg(caller', index', epoch', ct')
  {
    MethodNamesAreColonFree();
    if ShardSigningMsg(rpc, caller, index, ct) == PartialSigningMsg(caller', index', epoch', ct') {
      ResponseIsInjective(rpc, caller, BigEndian(index, 4), ct, Ascii("GetDprfPartial"), caller',
                          BigEndian(index', 4) + BigEndian(epoch', 8), ct');
    }
  }

  /** The layout of any signed response: prefix, method, colon, caller, what the method binds, ciphertext. */
  lemma {:induction false} ResponseReads(rpc: Bytes, caller: Bytes, meta: Bytes, ct: Bytes)
    requires |caller| == 20
    ensures
      var msg, n, k := ResponseMsg(rpc, caller, meta, ct), |rpc|, |meta|;
      && |msg| == 30 + n + k + |ct| && msg[..9] == Ascii("kms-resp:") && msg[9..9 + n] == rpc && msg[9 + n] == 58
      && msg[10 + n..30 + n] == caller && msg[30 + n..30 + n + k] == meta && msg[30 + n + k..] == ct
  {
    var msg, n := ResponseMsg(rpc, caller, meta, ct), |rpc|;
    FiveParts(Ascii("kms-resp:"), rpc + [COLON], caller, meta, ct);
    var named := msg[9..10 + n];
    assert named == rpc + [COLON];
    assert msg[9..9 + n] == named[..n] && msg[9 + n] == named[n];
  }

  lemma {:induction false} TwoPartMeta(rpc: Bytes, caller: Bytes, i: Bytes, e: Bytes, ct: Bytes)
    requires |caller| == 20 && |i| == 4 && |e| == 8
    ensures
      var msg, n := ResponseMsg(rpc, caller, i + e, ct), |rpc|;
      && |msg| == 42 + n + |ct| && msg[..9] == Ascii("kms-resp:") && msg[9..9 + n] == rpc && msg[9 + n] == 58
      && msg[10 + n..30 + n] == caller && msg[30 + n..34 + n] == i && msg[34 + n..42 + n] == e && msg[42 + n..] == ct
  {
    var msg, n := ResponseMsg(rpc, caller, i + e, ct), |rpc|;
    ResponseReads(rpc, caller, i + e, ct);
    var meta := msg[30 + n..42 + n];
    assert msg[30 + n..34 + n] == meta[..4] && msg[34 + n..42 + n] == meta[4..];
  }

  /** The layout of a partial's signed message: after the caller, the index and the epoch. */
  lemma {:induction false} PartialMessageReads(caller: Bytes, index: nat, epoch: nat, ct: Bytes)
    requires |caller| == 20 && index < Pow256(4) && epoch < Pow256(8)
    ensures
      var msg := PartialSigningMsg(caller, index, epoch, ct);
      && |msg| == 56 + |ct| && msg[..9] == Ascii("kms-resp:") && msg[9..23] == Ascii("GetDprfPartial")
      && msg[23] == 58 && msg[24..44] == caller
      && Number(msg[44..48]) == index && Number(msg[48..56]) == epoch && msg[56..] == ct
  {
    NumberOfBigEndian(index, 4);
    NumberOfBigEndian(epoch, 8);
    TwoPartMeta(Ascii("GetDprfPartial"), caller, BigEndian(index, 4), BigEndian(epoch, 8), ct);
  }

  /** The layout of a shard's signed message: after the caller, the index. */
  lemma {:induction false} ShardMessageReads(rpc: Bytes, caller: Bytes, index: nat, ct: Bytes)
    requires |caller| == 20 && index < Pow256(4)
    ensures
      var msg, n := ShardSigningMsg(rpc, caller, index, ct), |rpc|;
      && |msg| == 34 + n + |ct| && msg[..9] == Ascii("kms-resp:") && msg[9..9 + n] == rpc && msg[9 + n] == 58
      && msg[10 + n..30 + n] == caller && Number(msg[30 + n..34 + n]) == index && msg[34 + n..] == ct
  {
    NumberOfBigEndian(index, 4);
    ResponseReads(rpc, caller, BigEndian(index, 4), ct);
  }

  // ---- Signed requests ----

  function Digits(n: nat): (bytes: Bytes)
    ensures |bytes| >= 1 && forall i :: 0 <= i < |bytes| ==> 48 <= bytes[i] <= 57
    ensures |bytes| == 1 <==> n < 10
  {
    if n < 10 then [48 + n] else Digits(n / 10) + [48 + n % 10]
  }

  function Decimal(n: int): Bytes {
    if n < 0 then [MINUS] + Digits(-n) else Digits(n)
  }

  function RequestMsg(rpc: Bytes, timestamp: int): Bytes {
    Ascii("kms:") + (rpc + [COLON] + Decimal(timestamp))
  }

  /** The number that decimal digits stand for. */
  function DecimalNumber(digits: Bytes): int {
    if digits == [] then 0 else 10 * DecimalNumber(digits[..|digits| - 1]) + digits[|digits| - 1] - 48
  }

  lemma {:induction false} NumberOfDigits(n: nat)
    ensures DecimalNumber(Digits(n)) == n
  {
    if n < 10 {
      assert [48 + n][..0] == [];
    } else {
      NumberOfDigits(n / 10);
      assert Digits(n)[..|Digits(n)| - 1] == Digits(n / 10);
    }
  }

  lemma FourParts(a: Bytes, b: Bytes, c: Byte, d: Bytes)
    ensures
      var x, n := a + (b + [c] + d), |a| + |b|;
      |x| == n + 1 + |d| && x[..|a|] == a && x[|a|..n] == b && x[n] == c && x[n + 1..] == d
  {
    var x, n := a + (b + [c] + d), |a| + |b|;
    assert x[0..] == x && x[0..|a|] == x[..|a|] && b + [c] + d == b + ([c] + d);
    Piece(x, 0, a, b + ([c] + d));
    Piece(x, |a|, b, [c] + d);
    Piece(x, n, [c], d);
    assert x[n] == x[n..n + 1][0];
  }

  lemma {:induction false} DecimalReads(ts: int)
    ensures
      var d := Decimal(ts);
      && d != [] && (ts >= 0 ==> DecimalNumber(d) == ts)
      && (ts < 0 ==> d[0] == 45 && DecimalNumber(d[1..]) == -ts)
  {
    NumberOfDigits(if ts >= 0 then ts else -ts);
  }

  /** The layout of a request's signed message: prefix, method, colon, the timestamp in decimal. */
  lemma {:induction false} RequestMessageReads(rpc: Bytes, ts: int)
    ensures
      var msg, n := RequestMsg(rpc, ts), |rpc|;
      && |msg| > 5 + n && msg[..4] == Ascii("kms:") && msg[4..4 + n] == rpc && msg[4 + n] == 58
      && (ts >= 0 ==> DecimalNumber(msg[5 + n..]) == ts)
      && (ts < 0 ==> msg[5 + n..][0] == 45 && DecimalNumber(msg[5 + n..][1..]) == -ts)
  {
    FourParts(Ascii("kms:"), rpc, COLON, Decimal(ts));
    DecimalReads(ts);
  }

  lemma {:induction false} DigitsAreInjective(a: nat, b: nat)
    requires Digits(a) == Digits(b)
    ensures a == b
    decreases a
  {
    if a >= 10 {
      var x, y := Digits(a), Digits(b);
      assert x[|x| - 1] == 48 + a % 10 && y[|y| - 1] == 48 + b % 10;
      assert x[..|x| - 1] == Digits(a / 10) && y[..|y| - 1] == Digits(b / 10);
      DigitsAreInjective(a / 10, b / 10);
    } else {
      assert Digits(a)[0] == 48 + a && Digits(b)[0] == 48 + b;
    }
  }

  lemma DecimalIsInjective(a: int, b: int)
    requires Decimal(a) == Decimal(b)
    ensures a == b
  {
    assert a < 0 <==> Decimal(a)[0] == MINUS;
    assert b < 0 <==> Decimal(b)[0] == MINUS;
    if a < 0 {
      SplitFixed([MINUS], Digits(-a), [MINUS], Digits(-b));
      DigitsAreInjective(-a, -b);
    } else {
      DigitsAreInjective(a, b);
    }
  }

  lemma DecimalIsColonFree(n: int)
    ensures ColonFree(Decimal(n))
  {
    if n < 0 {
      var d := Decimal(n);
      assert forall i :: 1 <= i < |d| ==> d[i] == Digits(-n)[i - 1];
    }
  }

  /** A signed request determines its method and its timestamp, for any method names. */
  lemma RequestIsInjective(rpc: Bytes, ts: int, rpc': Bytes, ts': int)
    requires RequestMsg(rpc, ts) == RequestMsg(rpc', ts')
    ensures rpc == rpc' && ts == ts'
  {
    SplitFixed(Ascii("kms:"), rpc + [COLON] + Decimal(ts), Ascii("kms:"), rpc' + [COLON] + Decimal(ts'));
    DecimalIsColonFree(ts);
    DecimalIsColonFree(ts');
    SplitAtLastColon(rpc, Decimal(ts), rpc', Decimal(ts'));
    DecimalIsInjective(ts, ts');
  }

  /** No signed request is a signed response. */
  lemma RequestIsNotAResponse(rpc: Bytes, ts: int, rpc': Bytes, caller: Bytes, meta: Bytes, ct: Bytes)
    ensures RequestMsg(rpc, ts) != ResponseMsg(rpc', caller, meta, ct)
  {
    assert RequestMsg(rpc, ts)[3] == Ascii("kms:")[3] == ':' as int % 256;
    assert ResponseMsg(rpc', caller, meta, ct)[3] == Ascii("kms-resp:")[3] == '-' as int % 256;
  }
}
