/** Content keys: the bytes fed to the hash, and the hexadecimal name of a key. */
module Key {
  import opened Wrappers
  import opened Bits
  import opened Schema
  import opened Tbl

  /** The fields of a key in the order they are fed. The number of inputs is not among them. */
  datatype Request = Request(stage: seq<byte>, op: seq<byte>, inputs: seq<seq<byte>>, tag: seq<byte>, annotations: seq<byte>)

  function Fields(q: Request): seq<seq<byte>> {
    [q.stage, q.op] + q.inputs + [q.tag, q.annotations]
  }

  /** A field behind its length, in 32 bits. */
  function Fed(field: seq<byte>): seq<byte> {
    Le(|field|, 4) + field
  }

  function FedAll(fields: seq<seq<byte>>): seq<byte> {
    if fields == [] then [] else FedAll(fields[..|fields| - 1]) + Fed(fields[|fields| - 1])
  }

  function Preimage(q: Request): seq<byte> {
    FedAll(Fields(q))
  }

  lemma FedSnoc(fields: seq<seq<byte>>, f: seq<byte>)
    ensures FedAll([]) == [] && FedAll(fields + [f]) == FedAll(fields) + Fed(f)
  {
    assert (fields + [f])[..|fields|] == fields;
  }

  method Feed(h: seq<byte>, field: seq<byte>, ghost fields: seq<seq<byte>>) returns (h': seq<byte>)
    requires h == FedAll(fields)
    ensures h' == FedAll(fields + [field])
  {
    FedSnoc(fields, field);
    h' := h + Le(|field|, 4);
    h' := h' + field;
  }

  /** Everything fed to the hasher for a key. */
  method FeedKey(q: Request) returns (h: seq<byte>)
    ensures h == Preimage(q)
  {
    hide FedAll;
    FedSnoc([], []);
    h := [];
    ghost var fields: seq<seq<byte>> := [];
    h := Feed(h, q.stage, fields);
    fields := fields + [q.stage];
    h := Feed(h, q.op, fields);
    fields := fields + [q.op];
    for i := 0 to |q.inputs|
      invariant fields == [q.stage, q.op] + q.inputs[..i]
      invariant h == FedAll(fields)
    {
      h := Feed(h, q.inputs[i], fields);
      fields := fields + [q.inputs[i]];
    }
    h := Feed(h, q.tag, fields);
    fields := fields + [q.tag];
    h := Feed(h, q.annotations, fields);
    fields := fields + [q.annotations];
    assert fields == Fields(q);
  }

  // ---- unique decodability ----

  /** Reads length-prefixed fields until the bytes run out. */
  function Unfed(b: seq<byte>): Option<seq<seq<byte>>>
    decreases |b|
  {
    if b == [] then Some([])
    else if |b| < 4 || |b| < 4 + FromLe(b[..4]) then None
    else
      var n := 4 + FromLe(b[..4]);
      match Unfed(b[n..])
      case None => None
      case Some(rest) => Some([b[4..n]] + rest)
  }

  /** Every field is shorter than `n` bytes. */
  predicate Below(fields: seq<seq<byte>>, n: nat) {
    forall i | 0 <= i < |fields| :: |fields[i]| < n
  }

  predicate Short(fields: seq<seq<byte>>) {
    Below(fields, U32_MAX)
  }

  lemma UnfedFirst(f: seq<byte>, b: seq<byte>)
    requires |f| < U32_MAX
    ensures Unfed(Fed(f) + b) == match Unfed(b) case None => None case Some(rest) => Some([f] + rest)
  {
    hide Le, FromLe, Pow256;
    Pow256Values();
    LeReadsBack(|f|, 4);
    var all := Fed(f) + b;
    assert all[..4] == Le(|f|, 4);
    assert all[4..4 + |f|] == f && all[4 + |f|..] == b;
  }

  lemma {:induction false} FedFirst(fields: seq<seq<byte>>)
    requires fields != []
    ensures FedAll(fields) == Fed(fields[0]) + FedAll(fields[1..])
  {
    hide Fed, FedAll;
    var n := |fields| - 1;
    var front, last := fields[..n], fields[n];
    assert fields == front + [last];
    FedSnoc(front, last);
    if n == 0 {
      assert front == [] && fields[1..] == [];
    } else {
      FedFirst(front);
      assert fields[1..] == front[1..] + [last];
      FedSnoc(front[1..], last);
    }
  }

  /** Reading back what was fed recovers the fields. */
  lemma {:induction false} UnfedRecovers(fields: seq<seq<byte>>)
    requires Short(fields)
    ensures Unfed(FedAll(fields)) == Some(fields)
  {
    assert FedAll([]) == [] && Unfed([]) == Some([]);
    hide Fed, Unfed, FedAll;
    if fields != [] {
      FedFirst(fields);
      UnfedFirst(fields[0], FedAll(fields[1..]));
      UnfedRecovers(fields[1..]);
      assert fields == [fields[0]] + fields[1..];
    }
  }

  lemma FieldsDetermine(q: Request, q': Request)
    requires Fields(q) == Fields(q')
    ensures q == q'
  {
    var f, f' := Fields(q), Fields(q');
    assert q.inputs == f[2..|f| - 2] && q'.inputs == f'[2..|f'| - 2];
    assert q.stage == f[0] && q.op == f[1] && q.tag == f[|f| - 2] && q.annotations == f[|f| - 1];
    assert q'.stage == f'[0] && q'.op == f'[1] && q'.tag == f'[|f'| - 2] && q'.annotations == f'[|f'| - 1];
  }

  /** Requests whose fields are short feed the same bytes only if they are the same request. */
  lemma KeysSeparate(q: Request, q': Request)
    requires Short(Fields(q)) && Short(Fields(q'))
    ensures Preimage(q) == Preimage(q') <==> q == q'
  {
    UnfedRecovers(Fields(q));
    UnfedRecovers(Fields(q'));
    if Preimage(q) == Preimage(q') {
      FieldsDetermine(q, q');
    }
  }

  /** Beyond 32 bits the length wraps: one input of 2^32 bytes can feed what two shorter inputs feed. */
  lemma LongFieldsCollide(q: Request, body: seq<byte>) returns (one: Request, two: Request)
    requires |body| == U32_MAX - 4
    ensures one != two && Preimage(one) == Preimage(two)
    ensures one == q.(inputs := [Fed(body)]) && two == q.(inputs := [[], body]) && |Fed(body)| == U32_MAX
  {
    one, two := q.(inputs := [Fed(body)]), q.(inputs := [[], body]);
    LeWraps();
    var s := [q.stage, q.op];
    hide FedAll, Le, Fed;
    FedSnoc(s, Fed(body));
    FedSnoc(s, []);
    FedSnoc(s + [[]], body);
    var h := FedAll(s);
    assert FedAll(s + [Fed(body)]) == FedAll(s + [[]] + [body]) by {
      FedIs(Fed(body));
      FedIs([]);
      assert |Fed(body)| == U32_MAX by { FedIs(body); }
    }
    FedSnoc(s + [Fed(body)], q.tag);
    FedSnoc(s + [[]] + [body], q.tag);
    FedSnoc(s + [Fed(body)] + [q.tag], q.annotations);
    FedSnoc(s + [[]] + [body] + [q.tag], q.annotations);
    assert Fields(one) == s + [Fed(body)] + [q.tag] + [q.annotations];
    assert Fields(two) == s + [[]] + [body] + [q.tag] + [q.annotations];
    assert |Fed(body)| == U32_MAX by { FedIs(body); }
    assert one.inputs[0] != two.inputs[0];
  }

  /** What the original feeds: the annotations are a digest. */
  predicate Fits(q: Request, n: nat) {
    |q.annotations| == 32 && Below(Fields(q), n)
  }

  /** Of the requests whose fields are all shorter than `n` bytes, no two feed the same. */
  ghost predicate Separates(n: nat) {
    forall q, q' | Fits(q, n) && Fits(q', n) && Preimage(q) == Preimage(q') :: q == q'
  }

  /** The bound is exact: lengths up to 2^32 - 1 separate, and no more. */
  lemma SeparatesIff(n: nat)
    ensures Separates(n) <==> n <= U32_MAX
  {
    hide Preimage, Fields;
    if n <= U32_MAX {
      forall q, q' | Fits(q, n) && Fits(q', n) && Preimage(q) == Preimage(q')
        ensures q == q'
      {
        KeysSeparate(q, q');
      }
    } else {
      var one, two := LongFieldsCollide(Request([], [], [], [], Zeros(32)), Zeros(U32_MAX - 4));
      CollidingFields(one, two, n);
      assert Fits(one, n) && Fits(two, n) && Preimage(one) == Preimage(two);
    }
  }

  lemma CollidingFields(one: Request, two: Request, n: nat)
    requires |one.inputs| == 1 && |one.inputs[0]| == U32_MAX < n
    requires |two.inputs| == 2 && |two.inputs[0]| == 0 && |two.inputs[1]| == U32_MAX - 4
    requires one.stage == one.op == one.tag == [] && |one.annotations| == 32
    requires two == one.(inputs := two.inputs)
    ensures Below(Fields(one), n) && Below(Fields(two), n)
  {
  }

  lemma FedIs(f: seq<byte>)
    ensures Fed(f) == Le(|f|, 4) + f && |Fed(f)| == 4 + |f|
  {
  }

  lemma LeWraps()
    ensures Le(U32_MAX, 4) == Le(0, 4)
  {
    assert Le(U32_MAX, 4) == [0] + Le(0x100_0000, 3);
    assert Le(0x100_0000, 3) == [0] + Le(0x1_0000, 2);
    assert Le(0x1_0000, 2) == [0] + Le(0x100, 1);
    assert Le(0x100, 1) == [0] + Le(1, 0);
  }

  /** What is fed, in order: the stage, the operation, each input, the tag and the annotations. */
  lemma FedInOrder(q: Request)
    ensures Preimage(q) == Fed(q.stage) + Fed(q.op) + FedAll(q.inputs) + Fed(q.tag) + Fed(q.annotations)
    ensures forall a, b :: FedAll([a, b]) == Fed(a) + Fed(b)
  {
    hide Fed, FedAll;
    var head := [q.stage, q.op] + q.inputs;
    FedSnoc(head, q.tag);
    FedSnoc(head + [q.tag], q.annotations);
    assert Fields(q) == head + [q.tag] + [q.annotations];
    FedFirst(head);
    assert head[1..] == [q.op] + q.inputs;
    FedFirst([q.op] + q.inputs);
    assert ([q.op] + q.inputs)[1..] == q.inputs;
    forall a, b
      ensures FedAll([a, b]) == Fed(a) + Fed(b)
    {
      FedSnoc([], a);
      FedSnoc([a], b);
      assert [] + [a] == [a] && [a] + [b] == [a, b];
    }
  }

  /** A short field stands behind its length and three zero bytes. */
  lemma ShortField(f: seq<byte>)
    requires |f| < 256
    ensures Fed(f) == [|f|, 0, 0, 0] + f
  {
    assert Le(|f|, 4) == [|f|] + Le(0, 3) && Le(0, 3) == [0] + Le(0, 2) && Le(0, 2) == [0] + Le(0, 1) && Le(0, 1) == [0] + Le(0, 0);
  }

  // ---- hexadecimal names ----

  function HexDigit(d: nat): char
    requires d < 16
  {
    "0123456789abcdef"[d]
  }

  function Hex(b: seq<byte>): string {
    if b == [] then "" else [HexDigit(b[0] / 16), HexDigit(b[0] % 16)] + Hex(b[1..])
  }

  /** A hexadecimal digit, in either case. */
  function DigitValue(c: char): Option<nat> {
    if '0' <= c <= '9' then Some((c - '0') as int as nat)
    else if 'a' <= c <= 'f' then Some((c - 'a') as int as nat + 10)
    else if 'A' <= c <= 'F' then Some((c - 'A') as int as nat + 10)
    else None
  }

  /** Rust's `u8::from_str_radix(_, 16)` on two characters: a leading `+` is a sign. */
  function Radix16(a: char, b: char): (r: Option<byte>) {
    match DigitValue(b)
    case None => None
    case Some(lo) =>
      if a == '+' then Some(lo)
      else
        match DigitValue(a)
        case None => None
        case Some(hi) => if hi < 16 && lo < 16 then Some(16 * hi + lo) else None
  }

  /** The bytes an even number of characters name. */
  function Unhex(s: string): (r: Option<seq<byte>>)
    requires |s| % 2 == 0
    ensures r.Some? ==> |r.value| == |s| / 2
  {
    if s == "" then Some([])
    else
      match Unhex(s[..|s| - 2])
      case None => None
      case Some(front) =>
        match Radix16(s[|s| - 2], s[|s| - 1])
        case None => None
        case Some(b) => Some(front + [b])
  }

  function KeyOf(s: string): Option<seq<byte>> {
    if |s| != 64 then None else Unhex(s)
  }

  method FromHex(s: string) returns (r: Option<seq<byte>>)
    ensures r == KeyOf(s)
  {
    hide Radix16;
    if |s| != 64 {
      return None;
    }
    var out := new byte[32](_ => 0);
    for i := 0 to 32
      invariant Unhex(s[..2 * i]) == Some(out[..i])
    {
      assert s[..2 * (i + 1)][..2 * i] == s[..2 * i];
      UnhexStops(s, 2 * (i + 1));
      var b := Radix16(s[2 * i], s[2 * i + 1]);
      if b.None? {
        return None;
      }
      out[i] := b.value;
      assert out[..i + 1] == out[..i] + [b.value];
    }
    assert s[..64] == s && out[..32] == out[..];
    r := Some(out[..]);
  }

  lemma {:induction false} UnhexStops(s: string, n: nat)
    requires n <= |s| && n % 2 == 0 && |s| % 2 == 0
    ensures Unhex(s[..n]).None? ==> Unhex(s).None?
    decreases |s|
  {
    if n == |s| {
      assert s[..n] == s;
    } else {
      assert s[..|s| - 2][..n] == s[..n];
      UnhexStops(s[..|s| - 2], n);
    }
  }

  predicate DigitOf(c: char, v: nat) {
    v < 16 && c in {"0123456789abcdef"[v], "0123456789ABCDEF"[v]}
  }

  lemma DigitValueIs(c: char, v: nat)
    ensures DigitValue(c) == Some(v) <==> DigitOf(c, v)
    ensures DigitValue(c).Some? ==> DigitValue(c).value < 16 && c != '+'
  {
  }

  /** Two characters are a byte as two digits, of either case, or as a plus sign and one digit. */
  lemma PairReads(a: char, b: char, x: byte)
    ensures Radix16(a, b) == Some(x)
            <==> if a == '+' then DigitOf(b, x) else DigitOf(a, x / 16) && DigitOf(b, x % 16)
  {
    hide DigitOf, DigitValue;
    DigitValueIs(b, if a == '+' then x else x % 16);
    DigitValueIs(a, x / 16);
  }

  /** A name reads as `b` exactly when its characters, pair by pair, are the bytes of `b`. */
  lemma {:induction false} UnhexIff(s: string, b: seq<byte>)
    requires |s| % 2 == 0
    ensures Unhex(s) == Some(b) <==> |s| == 2 * |b| && forall i: nat | i < |b| :: Radix16(s[2 * i], s[2 * i + 1]) == Some(b[i])
    decreases |s|
  {
    hide Radix16;
    if s != "" {
      var front := s[..|s| - 2];
      if b != [] {
        UnhexIff(front, b[..|b| - 1]);
        assert b == b[..|b| - 1] + [b[|b| - 1]];
      }
      if Unhex(s).Some? {
        var r := Unhex(s).value;
        assert r[..|r| - 1] == Unhex(front).value;
      }
    }
  }

  /** The digits a byte is written with: its upper half and its lower half, in lower case. */
  lemma {:induction false} HexAt(b: seq<byte>, i: nat)
    requires i < |b|
    ensures |Hex(b)| == 2 * |b| && Hex(b)[2 * i] == HexDigit(b[i] / 16) && Hex(b)[2 * i + 1] == HexDigit(b[i] % 16)
  {
    hide HexDigit;
    HexLength(b);
    if i > 0 {
      HexAt(b[1..], i - 1);
    }
  }

  lemma HexDigitIs(d: nat)
    requires d < 16
    ensures HexDigit(d) as int == if d < 10 then '0' as int + d else 'a' as int + d - 10
  {
  }

  /** Which names are read, and as what: 64 characters that are, pair by pair, 32 bytes. */
  lemma KeyOfIff(s: string, b: seq<byte>)
    ensures KeyOf(s) == Some(b)
            <==> |s| == 64 && |b| == 32 && forall i: nat | i < 32 :: Radix16(s[2 * i], s[2 * i + 1]) == Some(b[i])
  {
    hide Radix16, Unhex;
    if |s| == 64 {
      UnhexIff(s, b);
    }
  }

  predicate LowerDigit(c: char) {
    '0' <= c <= '9' || 'a' <= c <= 'f'
  }

  predicate Lower(s: string) {
    forall i | 0 <= i < |s| :: LowerDigit(s[i])
  }

  lemma DigitsAre(d: nat, c: char)
    requires d < 16
    ensures DigitValue(HexDigit(d)) == Some(d) && HexDigit(d) != '+' && LowerDigit(HexDigit(d))
    ensures LowerDigit(c) ==> c != '+' && (DigitValue(c) == Some(d) ==> c == HexDigit(d))
  {
  }

  lemma {:induction false} HexSnoc(b: seq<byte>, x: byte)
    ensures Hex(b + [x]) == Hex(b) + [HexDigit(x / 16), HexDigit(x % 16)]
  {
    hide HexDigit;
    if b == [] {
      assert b + [x] == [x];
    } else {
      assert (b + [x])[1..] == b[1..] + [x];
      HexSnoc(b[1..], x);
    }
  }

  /** A name is the hexadecimal form of the bytes it is read as exactly when it is in lower case. */
  lemma {:induction false} UnhexIffHex(s: string, b: seq<byte>)
    requires |s| % 2 == 0
    ensures s == Hex(b) <==> Lower(s) && Unhex(s) == Some(b)
    decreases |b|
  {
    hide Radix16, DigitValue, HexDigit, LowerDigit;
    if b == [] {
    } else {
      var n := |b| - 1;
      var x := b[n];
      assert b == b[..n] + [x];
      HexSnoc(b[..n], x);
      if s != "" {
        var front, hi, lo := s[..|s| - 2], s[|s| - 2], s[|s| - 1];
        assert s == front + [hi, lo];
        UnhexIffHex(front, b[..n]);
        DigitsAre(x / 16, hi);
        DigitsAre(x % 16, lo);
        LowerPair(front, hi, lo);
        PairIsByte(hi, lo, x);
      }
    }
  }

  lemma LowerPair(front: string, hi: char, lo: char)
    ensures Lower(front + [hi, lo]) <==> Lower(front) && Lower([hi, lo])
  {
    var s := front + [hi, lo];
    assert s[|front|] == hi && s[|front| + 1] == lo;
    assert forall i | 0 <= i < |front| :: s[i] == front[i];
  }

  lemma PairIsByte(hi: char, lo: char, x: byte)
    ensures Lower([hi, lo]) && Radix16(hi, lo) == Some(x) <==> [hi, lo] == [HexDigit(x / 16), HexDigit(x % 16)]
  {
    hide HexDigit, DigitValue, LowerDigit;
    assert [hi, lo][0] == hi && [hi, lo][1] == lo;
    DigitsAre(x / 16, hi);
    DigitsAre(x % 16, lo);
  }

  /** A key reads back from its name; of the names that read as a key, only the lower-case one is its own. */
  lemma NamesRoundTrip(k: seq<byte>, s: string)
    requires |k| == 32
    ensures |Hex(k)| == 64 && KeyOf(Hex(k)) == Some(k)
    ensures KeyOf(s) == Some(k) ==> (Hex(k) == s <==> Lower(s))
  {
    HexLength(k);
    UnhexIffHex(Hex(k), k);
    if |s| == 64 {
      UnhexIffHex(s, k);
    }
  }

  lemma {:induction false} HexLength(b: seq<byte>)
    ensures |Hex(b)| == 2 * |b|
  {
    if b != [] {
      HexLength(b[1..]);
    }
  }

  /** A name with signs in it reads as a key that has another name. */
  lemma SignsAreAccepted(k: seq<byte>, s: string)
    requires |k| == 31 && s == "+7" + Hex(k)
    ensures KeyOf(s) == Some([7] + k) && Hex([7] + k) != s
  {
    HexLength(k);
    UnhexIffHex("07" + Hex(k), [7] + k);
    assert Hex([7] + k) == "07" + Hex(k) by { assert ([7] + k)[1..] == k; }
    SameBehind("+7", "07", Hex(k));
    assert s[0] == '+';
  }

  lemma {:induction false} SameBehind(a: string, b: string, s: string)
    requires |a| == |b| == 2 && |s| % 2 == 0 && Radix16(a[0], a[1]) == Radix16(b[0], b[1])
    ensures Unhex(a + s) == Unhex(b + s)
    decreases |s|
  {
    if s == "" {
      assert a + s == a && b + s == b;
      assert a[..0] == "" && b[..0] == "";
    } else {
      assert (a + s)[..|a + s| - 2] == a + s[..|s| - 2];
      assert (b + s)[..|b + s| - 2] == b + s[..|s| - 2];
      SameBehind(a, b, s[..|s| - 2]);
    }
  }
}
