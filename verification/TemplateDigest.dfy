/** The bytes hashed into a template's digest: its content, then each hole's name and
    scalar type, every item with its length. */
module TemplateDigest {
  import opened ValueTypes
  import opened TypeCodec

  datatype TemplateHole = TemplateHole(name: Text, valueType: ValueType)

  const MAGIC: Text :=
    [0x61, 0x6c, 0x6c, 0x65, 0x6e, 0x2d, 0x74, 0x65, 0x6d, 0x70, 0x6c, 0x61, 0x74, 0x65, 0x2d, 0x72, 0x65, 0x73, 0x6f,
     0x75, 0x72, 0x63, 0x65,
     0x2d, 0x76, 0x31, 0x00]
  const CONTENT: Text := [0x63, 0x6f, 0x6e, 0x74, 0x65, 0x6e, 0x74]
  const BOOL_NAME: Text := [0x42, 0x6f, 0x6f, 0x6c]
  const INT_NAME: Text := [0x49, 0x6e, 0x74]
  const FLOAT_NAME: Text := [0x46, 0x6c, 0x6f, 0x61, 0x74]
  const STRING_NAME: Text := [0x53, 0x74, 0x72, 0x69, 0x6e, 0x67]

  predicate ScalarHole(t: ValueType) {
    t.BoolType? || t.IntType? || t.FloatType? || t.StringType?
  }

  function ScalarName(t: ValueType): Text {
    match t
    case BoolType => BOOL_NAME
    case IntType => INT_NAME
    case FloatType => FLOAT_NAME
    case StringType => STRING_NAME
    case _ => []
  }

  lemma {:induction false} ScalarNamesDiffer(t: ValueType, u: ValueType)
    requires ScalarHole(t) && ScalarHole(u) && ScalarName(t) == ScalarName(u)
    ensures t == u
  {
    assert BOOL_NAME[0] == 0x42 && INT_NAME[0] == 0x49 && FLOAT_NAME[0] == 0x46 && STRING_NAME[0] == 0x53;
  }

  // ----- big-endian numbers -----

  function BigEndian(x: nat, width: nat): (r: seq<byte>)
    ensures |r| == width
  {
    if width == 0 then [] else BigEndian(x / 0x100, width - 1) + [x % 0x100]
  }

  lemma {:induction false} BigEndianInjective(x: nat, y: nat, width: nat)
    requires x < Capacity(width) && y < Capacity(width) && BigEndian(x, width) == BigEndian(y, width)
    ensures x == y
  {
    if width > 0 {
      var a, b := BigEndian(x / 0x100, width - 1), BigEndian(y / 0x100, width - 1);
      SplitEqual(a, [x % 0x100], b, [y % 0x100]);
      BigEndianInjective(x / 0x100, y / 0x100, width - 1);
    }
  }

  // ----- items -----

  predicate Fits(text: Text) {
    |text| < 0x1_0000_0000_0000_0000
  }

  function PutText(text: Text): seq<byte> {
    BigEndian(|text|, 8) + text
  }

  function PutItem(name: Text, value: Text): seq<byte> {
    PutText(name) + PutText(value)
  }

  lemma {:induction false} TextPrefixFree(a: Text, r: seq<byte>, b: Text, s: seq<byte>)
    requires Fits(a) && Fits(b) && PutText(a) + r == PutText(b) + s
    ensures a == b && r == s
  {
    Capacities();
    Assoc(BigEndian(|a|, 8), a, r);
    Assoc(BigEndian(|b|, 8), b, s);
    SplitEqual(BigEndian(|a|, 8), a + r, BigEndian(|b|, 8), b + s);
    BigEndianInjective(|a|, |b|, 8);
    SplitEqual(a, r, b, s);
  }

  lemma {:induction false} ItemPrefixFree(m: Text, a: Text, r: seq<byte>, n: Text, b: Text, s: seq<byte>)
    requires Fits(m) && Fits(a) && Fits(n) && Fits(b) && PutItem(m, a) + r == PutItem(n, b) + s
    ensures m == n && a == b && r == s
  {
    Assoc(PutText(m), PutText(a), r);
    Assoc(PutText(n), PutText(b), s);
    TextPrefixFree(m, PutText(a) + r, n, PutText(b) + s);
    TextPrefixFree(a, r, b, s);
  }

  // ----- the preimage -----

  function PutHoles(holes: seq<TemplateHole>): seq<byte> {
    if holes == [] then [] else PutItem(holes[0].name, ScalarName(holes[0].valueType)) + PutHoles(holes[1..])
  }

  function Preimage(content: Text, holes: seq<TemplateHole>): seq<byte> {
    MAGIC + (PutItem(CONTENT, content) + PutHoles(holes))
  }

  method BuildPreimage(content: Text, holes: seq<TemplateHole>) returns (bytes: seq<byte>)
    ensures bytes == Preimage(content, holes)
  {
    bytes := MAGIC;
    Assoc(MAGIC, PutItem(CONTENT, content), PutHoles(holes));
    bytes := bytes + PutItem(CONTENT, content);
    assert holes[0..] == holes;
    for i := 0 to |holes|
      invariant bytes + PutHoles(holes[i..]) == Preimage(content, holes)
    {
      var item := PutItem(holes[i].name, ScalarName(holes[i].valueType));
      assert holes[i..][1..] == holes[i + 1..];
      Assoc(bytes, item, PutHoles(holes[i + 1..]));
      bytes := bytes + item;
    }
    assert bytes + [] == bytes;
  }

  /** Every length fits a machine word, as in memory it does. */
  predicate TemplateFits(content: Text, holes: seq<TemplateHole>) {
    Fits(content) && forall i | 0 <= i < |holes| :: Fits(holes[i].name)
  }

  predicate ScalarHoles(holes: seq<TemplateHole>) {
    forall i | 0 <= i < |holes| :: ScalarHole(holes[i].valueType)
  }

  lemma {:induction false} HolesDecode(a: seq<TemplateHole>, b: seq<TemplateHole>)
    requires ScalarHoles(a) && ScalarHoles(b) && PutHoles(a) == PutHoles(b)
    requires forall i | 0 <= i < |a| :: Fits(a[i].name)
    requires forall i | 0 <= i < |b| :: Fits(b[i].name)
    ensures a == b
    decreases |a|
  {
    if a != [] && b != [] {
      ItemPrefixFree(a[0].name, ScalarName(a[0].valueType), PutHoles(a[1..]), b[0].name, ScalarName(b[0].valueType),
                     PutHoles(b[1..]));
      ScalarNamesDiffer(a[0].valueType, b[0].valueType);
      HolesDecode(a[1..], b[1..]);
      assert a == [a[0]] + a[1..] && b == [b[0]] + b[1..];
    }
  }

  /** Equal preimages describe the same template. */
  lemma {:induction false} PreimageDecodes(content: Text, a: seq<TemplateHole>, text: Text, b: seq<TemplateHole>)
    requires TemplateFits(content, a) && TemplateFits(text, b) && ScalarHoles(a) && ScalarHoles(b)
    requires Preimage(content, a) == Preimage(text, b)
    ensures content == text && a == b
  {
    SplitEqual(MAGIC, PutItem(CONTENT, content) + PutHoles(a), MAGIC, PutItem(CONTENT, text) + PutHoles(b));
    ItemPrefixFree(CONTENT, content, PutHoles(a), CONTENT, text, PutHoles(b));
    HolesDecode(a, b);
  }
}
