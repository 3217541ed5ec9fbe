// Paths of entities inside component definitions: names are written in base64url
// without padding (sections 3.2, 4 and 5 of RFC 4648), so that no name can disturb
// the slashes of the path.
module EntityPathToken {

  type Byte = i: int | 0 <= i < 256
  type Bytes = seq<Byte>

  datatype Decoded = Invalid | Valid(value: Bytes)

  // One character for six bits, and back. The decoder also takes the characters of the
  // other base64 alphabet.
  function CharOf(v: int): char
    requires 0 <= v < 64
  {
    if v < 26 then ('A' as int + v) as char
    else if v < 52 then ('a' as int + v - 26) as char
    else if v < 62 then ('0' as int + v - 52) as char
    else if v == 62 then '-'
    else '_'
  }

  function ValueOf(c: char): (v: int)
    ensures -1 <= v < 64
  {
    if 'A' <= c <= 'Z' then c as int - 'A' as int
    else if 'a' <= c <= 'z' then c as int - 'a' as int + 26
    else if '0' <= c <= '9' then c as int - '0' as int + 52
    else if c == '-' || c == '+' then 62
    else if c == '_' || c == '/' then 63
    else -1
  }

  predicate IsUrlChar(c: char) {
    ValueOf(c) >= 0 && c != '+' && c != '/'
  }

  lemma CharsAndValues(v: int, c: char)
    ensures 0 <= v < 64 ==> ValueOf(CharOf(v)) == v && IsUrlChar(CharOf(v))
    ensures IsUrlChar(c) ==> CharOf(ValueOf(c)) == c
    ensures !IsUrlChar('=')
  {
  }

  // Three bytes give four characters; two give three, and one gives two.
  function Triple(x: Byte, y: Byte, z: Byte): string {
    [CharOf(x / 4), CharOf(x % 4 * 16 + y / 16), CharOf(y % 16 * 4 + z / 64), CharOf(z % 64)]
  }

  function Pair(x: Byte, y: Byte): string {
    [CharOf(x / 4), CharOf(x % 4 * 16 + y / 16), CharOf(y % 16 * 4)]
  }

  function Single(x: Byte): string {
    [CharOf(x / 4), CharOf(x % 4 * 16)]
  }

  // Base64.urlsafe_encode64 with its padding.
  function EncodePadded(s: Bytes): string {
    if s == [] then ""
    else if |s| == 1 then Single(s[0]) + "=="
    else if |s| == 2 then Pair(s[0], s[1]) + "="
    else Triple(s[0], s[1], s[2]) + EncodePadded(s[3..])
  }

  // padding: false deletes every "=".
  function WithoutPadding(t: string): string {
    if t == "" then "" else (if t[0] == '=' then "" else [t[0]]) + WithoutPadding(t[1..])
  }

  function Encode(s: Bytes): string {
    WithoutPadding(EncodePadded(s))
  }

  function Padding(n: nat): string {
    if n == 0 then "" else "=" + Padding(n - 1)
  }

  // Base64.urlsafe_decode64 on a padded text: bits that are left over must be zero.
  function DecodePadded(t: string): Decoded {
    if t == "" then Valid([])
    else if |t| < 4 || ValueOf(t[0]) < 0 || ValueOf(t[1]) < 0 then Invalid
    else DecodeGroup(t, ValueOf(t[0]), ValueOf(t[1]))
  }

  function DecodeGroup(t: string, a: nat, b: nat): Decoded
    requires |t| >= 4 && a < 64 && b < 64
  {
    if t[2] == '=' then
      if |t| == 4 && t[3] == '=' && b % 16 == 0 then Valid([a * 4 + b / 16]) else Invalid
    else if ValueOf(t[2]) < 0 then Invalid
    else
      var c: nat := ValueOf(t[2]);
      if t[3] == '=' then
        if |t| == 4 && c % 4 == 0 then Valid([a * 4 + b / 16, b % 16 * 16 + c / 4]) else Invalid
      else if ValueOf(t[3]) < 0 then Invalid
      else
        match DecodePadded(t[4..])
        case Invalid => Invalid
        case Valid(rest) => Valid(ThreeBytes(a, b, c, ValueOf(t[3])) + rest)
  }

  function ThreeBytes(a: nat, b: nat, c: nat, d: nat): Bytes
    requires a < 64 && b < 64 && c < 64 && d < 64
  {
    [a * 4 + b / 16, b % 16 * 16 + c / 4, c % 4 * 64 + d]
  }

  function Decode(token: string): Decoded {
    DecodePadded(token + Padding((4 - |token| % 4) % 4))
  }

  // Round trips -----------------------------------------------------------------

  predicate IsUrlText(t: string) {
    forall i :: 0 <= i < |t| ==> IsUrlChar(t[i])
  }

  lemma GroupsAreUrlText(x: Byte, y: Byte, z: Byte)
    ensures IsUrlText(Triple(x, y, z)) && IsUrlText(Pair(x, y)) && IsUrlText(Single(x))
    ensures |Triple(x, y, z)| == 4 && |Pair(x, y)| == 3 && |Single(x)| == 2
  {
    forall v: int | 0 <= v < 64 ensures IsUrlChar(CharOf(v)) {
      CharsAndValues(v, 'A');
    }
    hide CharOf, IsUrlChar;
  }

  lemma BytesOfSextets(x: Byte, y: Byte, z: Byte)
    ensures var a, b, c, d := x / 4, x % 4 * 16 + y / 16, y % 16 * 4 + z / 64, z % 64;
      0 <= a < 64 && 0 <= b < 64 && 0 <= c < 64 && 0 <= d < 64 && ThreeBytes(a, b, c, d) == [x, y, z]
  {
    var a, b, c, d: nat := x / 4, x % 4 * 16 + y / 16, y % 16 * 4 + z / 64, z % 64;
    assert x == a * 4 + b / 16 && b / 16 == x % 4;
    assert y == b % 16 * 16 + c / 4 && c / 4 == y % 16;
    assert z == c % 4 * 64 + d && c % 4 == z / 64;
  }

  // The value of a text that begins with four characters, none of them padding.
  lemma DecodeFour(w: string, a: nat, b: nat, c: nat, d: nat)
    requires |w| >= 4 && ValueOf(w[0]) == a && ValueOf(w[1]) == b && ValueOf(w[2]) == c && ValueOf(w[3]) == d
    requires DecodePadded(w[4..]).Valid?
    ensures DecodePadded(w) == Valid(ThreeBytes(a, b, c, d) + DecodePadded(w[4..]).value)
  {
    CharsAndValues(0, '=');
    assert w[2] != '=' && w[3] != '=';
    hide ValueOf, ThreeBytes;
  }

  lemma TripleValues(x: Byte, y: Byte, z: Byte, w: string)
    requires |w| >= 4 && w[..4] == Triple(x, y, z)
    ensures ValueOf(w[0]) == x / 4 && ValueOf(w[1]) == x % 4 * 16 + y / 16
    ensures ValueOf(w[2]) == y % 16 * 4 + z / 64 && ValueOf(w[3]) == z % 64
  {
    CharsAndValues(x / 4, '=');
    CharsAndValues(x % 4 * 16 + y / 16, '=');
    CharsAndValues(y % 16 * 4 + z / 64, '=');
    CharsAndValues(z % 64, '=');
    hide CharOf, ValueOf;
    assert w[..4][0] == w[0] && w[..4][1] == w[1] && w[..4][2] == w[2] && w[..4][3] == w[3];
  }

  lemma DecodeTriple(x: Byte, y: Byte, z: Byte, t: string)
    requires DecodePadded(t).Valid?
    ensures DecodePadded(Triple(x, y, z) + t) == Valid([x, y, z] + DecodePadded(t).value)
  {
    GroupsAreUrlText(x, y, z);
    BytesOfSextets(x, y, z);
    hide DecodePadded, ValueOf, Triple, ThreeBytes;
    var w := Triple(x, y, z) + t;
    assert w[..4] == Triple(x, y, z) && w[4..] == t;
    TripleValues(x, y, z, w);
    DecodeFour(w, x / 4, x % 4 * 16 + y / 16, y % 16 * 4 + z / 64, z % 64);
  }

  lemma DecodeShort(x: Byte, y: Byte)
    ensures DecodePadded(Pair(x, y) + "=") == Valid([x, y]) && DecodePadded(Single(x) + "==") == Valid([x])
  {
    CharsAndValues(x / 4, '=');
    CharsAndValues(x % 4 * 16 + y / 16, 'A');
    CharsAndValues(x % 4 * 16, 'A');
    CharsAndValues(y % 16 * 4, 'A');
    hide CharOf, ValueOf;
  }

  lemma {:induction false} DecodeOfEncodedPadded(s: Bytes)
    ensures DecodePadded(EncodePadded(s)) == Valid(s)
  {
    hide Triple, Pair, Single, DecodePadded;
    if s == [] {
      DecodeNothing();
    } else if |s| == 1 {
      DecodeShort(s[0], 0);
      assert s == [s[0]];
    } else if |s| == 2 {
      DecodeShort(s[0], s[1]);
      assert s == [s[0], s[1]];
    } else {
      DecodeOfEncodedPadded(s[3..]);
      DecodeTriple(s[0], s[1], s[2], EncodePadded(s[3..]));
      assert s == [s[0], s[1], s[2]] + s[3..];
    }
  }

  lemma DecodeNothing()
    ensures DecodePadded("") == Valid([])
  {
  }

  lemma {:induction false} WithoutPaddingJoined(a: string, b: string)
    ensures WithoutPadding(a + b) == WithoutPadding(a) + WithoutPadding(b)
  {
    if a == "" {
      assert a + b == b;
    } else {
      assert (a + b)[1..] == a[1..] + b;
      WithoutPaddingJoined(a[1..], b);
    }
  }

  lemma {:induction false} UrlTextStays(t: string)
    requires IsUrlText(t)
    ensures WithoutPadding(t) == t
  {
    if t != "" {
      CharsAndValues(0, t[0]);
      UrlTextStays(t[1..]);
    }
  }

  lemma {:induction false} PaddingIs(n: nat)
    ensures WithoutPadding(Padding(n)) == "" && |Padding(n)| == n && forall i :: 0 <= i < n ==> Padding(n)[i] == '='
  {
    if n > 0 {
      PaddingIs(n - 1);
      assert Padding(n)[1..] == Padding(n - 1);
    }
  }

  lemma Paddings()
    ensures Padding(0) == "" && Padding(1) == "=" && Padding(2) == "=="
  {
    assert Padding(2) == "=" + Padding(1);
  }

  // A text of the alphabet keeps itself, and loses the padding behind it.
  lemma StripBehind(t: string, n: nat)
    requires IsUrlText(t)
    ensures WithoutPadding(t + Padding(n)) == t
  {
    WithoutPaddingJoined(t, Padding(n));
    UrlTextStays(t);
    PaddingIs(n);
  }

  lemma EncodeStep(s: Bytes)
    requires |s| >= 3
    ensures Encode(s) == Triple(s[0], s[1], s[2]) + Encode(s[3..])
  {
    GroupsAreUrlText(s[0], s[1], s[2]);
    hide Triple;
    WithoutPaddingJoined(Triple(s[0], s[1], s[2]), EncodePadded(s[3..]));
    UrlTextStays(Triple(s[0], s[1], s[2]));
  }

  ghost predicate Restores(token: string, padded: string) {
    IsUrlText(token) && token + Padding((4 - |token| % 4) % 4) == padded
  }

  lemma RestoresShort(x: Byte, y: Byte)
    ensures Restores(Encode([x]), EncodePadded([x])) && Encode([x]) != ""
    ensures Restores(Encode([x, y]), EncodePadded([x, y])) && Encode([x, y]) != ""
  {
    Paddings();
    GroupsAreUrlText(x, y, 0);
    assert EncodePadded([x]) == Single(x) + "==" && EncodePadded([x, y]) == Pair(x, y) + "=";
    hide Triple, Pair, Single, Padding, IsUrlText, WithoutPadding, EncodePadded;
    StripBehind(Single(x), 2);
    StripBehind(Pair(x, y), 1);
  }

  lemma RestoresBehind(group: string, token: string, padded: string)
    requires |group| == 4 && IsUrlText(group) && Restores(token, padded)
    ensures Restores(group + token, group + padded)
  {
    hide IsUrlChar, Padding;
    assert (4 + |token|) % 4 == |token| % 4;
    var p := Padding((4 - |token| % 4) % 4);
    assert (group + token) + p == group + (token + p);
  }

  // The padding that is put back is the padding that was taken away, for every length.
  lemma {:induction false} PaddingRestored(s: Bytes)
    ensures Restores(Encode(s), EncodePadded(s)) && (Encode(s) == "" <==> s == [])
  {
    if s == [] {
      Paddings();
    } else if |s| < 3 {
      RestoresShort(s[0], if |s| == 1 then 0 else s[1]);
      assert s == (if |s| == 1 then [s[0]] else [s[0], s[1]]);
    } else {
      hide Encode, Triple, Restores;
      PaddingRestored(s[3..]);
      GroupsAreUrlText(s[0], s[1], s[2]);
      EncodeStep(s);
      RestoresBehind(Triple(s[0], s[1], s[2]), Encode(s[3..]), EncodePadded(s[3..]));
    }
  }

  // Decoding a token gives back what was encoded, and a token has no slash in it.
  lemma DecodeOfEncode(s: Bytes)
    ensures Decode(Encode(s)) == Valid(s)
    ensures '/' !in Encode(s) && (Encode(s) == "" <==> s == [])
  {
    PaddingRestored(s);
    hide Encode, EncodePadded;
    DecodeOfEncodedPadded(s);
  }

  ghost predicate IsPaddedText(t: string) {
    forall i :: 0 <= i < |t| ==> IsUrlChar(t[i]) || t[i] == '='
  }

  // A group of four characters, and the bytes in it.
  lemma SingleBack(t: string)
    requires |t| >= 4 && DecodePadded(t).Valid? && IsPaddedText(t) && t[2] == '='
    ensures |DecodePadded(t).value| == 1 && t == Single(DecodePadded(t).value[0]) + "=="
  {
    var a, b: nat := ValueOf(t[0]), ValueOf(t[1]);
    assert DecodePadded(t) == Valid([a * 4 + b / 16]) && |t| == 4 && t[3] == '=' && b % 16 == 0;
    CharsAndValues(0, '=');
    UrlCharBack(t, 0);
    UrlCharBack(t, 1);
    hide DecodePadded, CharOf, ValueOf, IsUrlChar;
    Sextets(a, b, 0, 0);
  }

  lemma Sextets(a: nat, b: nat, c: nat, d: nat)
    requires a < 64 && b < 64 && c < 64 && d < 64
    ensures var x, y, z := a * 4 + b / 16, b % 16 * 16 + c / 4, c % 4 * 64 + d;
      x < 256 && y < 256 && z < 256 && x / 4 == a && x % 4 * 16 + y / 16 == b && y % 16 * 4 + z / 64 == c && z % 64 == d
        && (c % 4 == 0 ==> y % 16 * 4 == c)
  {
    var x, y, z := a * 4 + b / 16, b % 16 * 16 + c / 4, c % 4 * 64 + d;
    assert x / 4 == a && x % 4 == b / 16;
    assert y / 16 == b % 16 && y % 16 == c / 4;
    assert z / 64 == c % 4 && z % 64 == d;
  }

  lemma PairBack(t: string)
    requires |t| >= 4 && DecodePadded(t).Valid? && IsPaddedText(t) && t[2] != '=' && t[3] == '='
    ensures |DecodePadded(t).value| == 2 && t == Pair(DecodePadded(t).value[0], DecodePadded(t).value[1]) + "="
  {
    var a, b, c: nat := ValueOf(t[0]), ValueOf(t[1]), ValueOf(t[2]);
    assert DecodePadded(t) == Valid([a * 4 + b / 16, b % 16 * 16 + c / 4]) && |t| == 4 && c % 4 == 0;
    UrlCharBack(t, 0);
    UrlCharBack(t, 1);
    UrlCharBack(t, 2);
    hide DecodePadded, CharOf, ValueOf, IsUrlChar;
    Sextets(a, b, c, 0);
  }

  lemma UrlCharBack(t: string, i: nat)
    requires IsPaddedText(t) && i < |t| && t[i] != '='
    ensures 0 <= ValueOf(t[i]) && CharOf(ValueOf(t[i])) == t[i]
  {
    CharsAndValues(0, t[i]);
  }

  lemma TripleValue(t: string)
    requires |t| >= 4 && DecodePadded(t).Valid? && t[2] != '=' && t[3] != '='
    ensures ValueOf(t[0]) >= 0 && ValueOf(t[1]) >= 0 && ValueOf(t[2]) >= 0 && ValueOf(t[3]) >= 0
    ensures DecodePadded(t[4..]).Valid?
    ensures DecodePadded(t).value == ThreeBytes(ValueOf(t[0]), ValueOf(t[1]), ValueOf(t[2]), ValueOf(t[3]))
            + DecodePadded(t[4..]).value
  {
    hide ValueOf, ThreeBytes;
  }

  lemma TripleOfSextets(a: nat, b: nat, c: nat, d: nat)
    requires a < 64 && b < 64 && c < 64 && d < 64
    ensures var v := ThreeBytes(a, b, c, d);
            |v| == 3 && Triple(v[0], v[1], v[2]) == [CharOf(a), CharOf(b), CharOf(c), CharOf(d)]
  {
    Sextets(a, b, c, d);
    assert ThreeBytes(a, b, c, d) == [a * 4 + b / 16, b % 16 * 16 + c / 4, c % 4 * 64 + d];
    hide *;
    TripleIs(a * 4 + b / 16, b % 16 * 16 + c / 4, c % 4 * 64 + d, a, b, c, d);
  }

  lemma TripleIs(x: Byte, y: Byte, z: Byte, a: nat, b: nat, c: nat, d: nat)
    requires x / 4 == a && x % 4 * 16 + y / 16 == b && y % 16 * 4 + z / 64 == c && z % 64 == d
    ensures Triple(x, y, z) == [CharOf(a), CharOf(b), CharOf(c), CharOf(d)]
  {
    hide CharOf;
  }

  lemma TripleBack(t: string)
    requires |t| >= 4 && DecodePadded(t).Valid? && IsPaddedText(t) && t[2] != '=' && t[3] != '='
    ensures var v := DecodePadded(t).value;
      DecodePadded(t[4..]).Valid? && |v| >= 3 && v[3..] == DecodePadded(t[4..]).value
        && t[..4] == Triple(v[0], v[1], v[2])
  {
    TripleValue(t);
    TripleOfSextets(ValueOf(t[0]), ValueOf(t[1]), ValueOf(t[2]), ValueOf(t[3]));
    FourBack(t);
    hide DecodePadded, CharOf, ValueOf, IsUrlChar, IsPaddedText, Triple, ThreeBytes;
    var v := ThreeBytes(ValueOf(t[0]), ValueOf(t[1]), ValueOf(t[2]), ValueOf(t[3]));
    assert DecodePadded(t).value[..3] == v;
  }

  lemma FourBack(t: string)
    requires |t| >= 4 && DecodePadded(t).Valid? && IsPaddedText(t) && t[2] != '=' && t[3] != '='
    ensures forall i :: 0 <= i < 4 ==> ValueOf(t[i]) >= 0
    ensures t[..4] == [CharOf(ValueOf(t[0])), CharOf(ValueOf(t[1])), CharOf(ValueOf(t[2])), CharOf(ValueOf(t[3]))]
  {
    TripleValue(t);
    CharsAndValues(0, '=');
    assert t[0] != '=' && t[1] != '=';
    hide DecodePadded, CharOf, ValueOf, IsPaddedText;
    UrlCharBack(t, 0);
    UrlCharBack(t, 1);
    UrlCharBack(t, 2);
    UrlCharBack(t, 3);
  }

  lemma {:induction false} EncodeOfDecodedPadded(t: string)
    requires DecodePadded(t).Valid? && IsPaddedText(t)
    ensures EncodePadded(DecodePadded(t).value) == t
  {
    if t != "" {
      assert |t| >= 4;
      hide DecodePadded, Triple, Pair, Single, IsUrlChar;
      if t[2] == '=' {
        SingleBack(t);
      } else if t[3] == '=' {
        PairBack(t);
      } else {
        TripleBack(t);
        EncodeOfDecodedPadded(t[4..]);
        assert t == t[..4] + t[4..];
      }
    }
  }

  // Of the texts of the url alphabet, no two decode to the same bytes.
  lemma EncodeOfDecode(token: string)
    requires Decode(token).Valid? && IsUrlText(token)
    ensures Encode(Decode(token).value) == token
  {
    var n := (4 - |token| % 4) % 4;
    PaddingIs(n);
    StripBehind(token, n);
    hide DecodePadded, EncodePadded, Padding, IsUrlChar, WithoutPadding;
    EncodeOfDecodedPadded(token + Padding(n));
  }

  // Paths -----------------------------------------------------------------------

  datatype EntityType = Group | ComponentInstance | FaceType | EdgeType

  datatype Path = NoPath | Path(definition: Bytes, entity: EntityType, reference: Bytes)

  function TypeName(e: EntityType): string {
    match e
    case Group => "group"
    case ComponentInstance => "component_instance"
    case FaceType => "face"
    case EdgeType => "edge"
  }

  function Print(definition: Bytes, entity: EntityType, reference: Bytes): string {
    "definition:" + Encode(definition) + "/" + TypeName(entity) + ":" + Encode(reference)
  }

  // The text before the first slash and the text behind it.
  function UntilSlash(t: string): string {
    if t == "" || t[0] == '/' then "" else [t[0]] + UntilSlash(t[1..])
  }

  predicate StartsWith(t: string, prefix: string) {
    prefix <= t
  }

  // A path that names a group or an instance by two tokens, both of them nonempty.
  function Parse(t: string): Path {
    if !StartsWith(t, "definition:") then NoPath
    else
      var name := UntilSlash(t[|"definition:"|..]);
      var at := |"definition:"| + |name|;
      if name == "" || at >= |t| then NoPath
      else ParseEntity(name, t[at + 1..])
  }

  function ParseEntity(name: string, t: string): Path {
    if StartsWith(t, "group:") then ParseReference(name, Group, t[|"group:"|..])
    else if StartsWith(t, "component_instance:") then
      ParseReference(name, ComponentInstance, t[|"component_instance:"|..])
    else NoPath
  }

  function ParseReference(name: string, entity: EntityType, t: string): Path {
    if t == "" || UntilSlash(t) != t then NoPath
    else
      match (Decode(name), Decode(t))
      case (Valid(d), Valid(r)) => Path(d, entity, r)
      case (_, _) => NoPath
  }

  lemma {:induction false} SlashFound(a: string, b: string)
    requires '/' !in a
    ensures UntilSlash(a + "/" + b) == a && UntilSlash(a) == a
  {
    if a != "" {
      SlashFound(a[1..], b);
      assert (a + "/" + b)[1..] == a[1..] + "/" + b;
    } else {
      assert a + "/" + b == "/" + b;
    }
  }

  // Parsing undoes printing exactly for the paths there is a use for: of a group or an
  // instance, with a name and a reference that are not empty.
  lemma ParseOfPrint(definition: Bytes, entity: EntityType, reference: Bytes)
    ensures Parse(Print(definition, entity, reference))
         == if definition != [] && reference != [] && (entity.Group? || entity.ComponentInstance?)
            then Path(definition, entity, reference) else NoPath
  {
    DecodeOfEncode(definition);
    DecodeOfEncode(reference);
    hide Encode, Decode, Parse, ParseEntity, UntilSlash, TypeName;
    var name, behind := Encode(definition), TypeName(entity) + ":" + Encode(reference);
    SlashFound(name, behind);
    SlashFound(Encode(reference), "");
    ParseSplits(name, behind);
    ParseTail(name, entity, Encode(reference));
    PrintIs(definition, entity, reference);
    hide Print;
  }

  lemma PrintIs(definition: Bytes, entity: EntityType, reference: Bytes)
    ensures Print(definition, entity, reference)
         == "definition:" + (Encode(definition) + "/" + (TypeName(entity) + ":" + Encode(reference)))
  {
    hide Encode, TypeName;
  }

  lemma ParseSplits(name: string, behind: string)
    requires UntilSlash(name + "/" + behind) == name
    ensures Parse("definition:" + (name + "/" + behind)) == if name == "" then NoPath else ParseEntity(name, behind)
  {
    hide UntilSlash, ParseEntity;
    var rest := name + "/" + behind;
    var t := "definition:" + rest;
    assert t[|"definition:"|..] == rest;
    assert t[|"definition:"| + |name| + 1..] == behind;
  }

  lemma ParseTail(name: string, entity: EntityType, reference: string)
    ensures ParseEntity(name, TypeName(entity) + ":" + reference)
         == if entity.Group? || entity.ComponentInstance? then ParseReference(name, entity, reference) else NoPath
  {
    hide ParseReference;
    var t := TypeName(entity) + ":" + reference;
    match entity {
      case Group => assert t == "group:" + reference && t[|"group:"|..] == reference;
      case ComponentInstance =>
        assert t == "component_instance:" + reference && t[|"component_instance:"|..] == reference;
        assert t[0] == 'c';
      case FaceType => assert t[0] == 'f';
      case EdgeType => assert t[0] == 'e';
    }
  }

  // A text in the form of a path: a name and a reference without slashes, neither of
  // them empty, of a group or an instance.
  ghost predicate IsPathText(t: string, name: string, entity: EntityType, reference: string) {
    && name != "" && reference != "" && '/' !in name && '/' !in reference
    && ((entity.Group? && t == "definition:" + (name + "/" + ("group:" + reference)))
        || (entity.ComponentInstance? && t == "definition:" + (name + "/" + ("component_instance:" + reference))))
  }

  lemma {:induction false} SlashSplits(t: string)
    ensures '/' !in UntilSlash(t) && |UntilSlash(t)| <= |t|
    ensures |UntilSlash(t)| < |t| ==> t == UntilSlash(t) + "/" + t[|UntilSlash(t)| + 1..]
    ensures |UntilSlash(t)| == |t| ==> UntilSlash(t) == t
  {
    if t != "" && t[0] != '/' {
      SlashSplits(t[1..]);
    }
  }

  lemma NameParsed(t: string) returns (name: string, behind: string)
    requires Parse(t).Path?
    ensures t == "definition:" + (name + "/" + behind) && name != "" && '/' !in name
    ensures Parse(t) == ParseEntity(name, behind)
  {
    hide ParseEntity, UntilSlash;
    var rest := t[|"definition:"|..];
    SlashSplits(rest);
    name := UntilSlash(rest);
    behind := t[|"definition:"| + |name| + 1..];
    assert behind == rest[|name| + 1..] && rest == name + "/" + behind;
  }

  lemma EntityParsed(name: string, t: string) returns (entity: EntityType, reference: string)
    requires ParseEntity(name, t).Path?
    ensures (entity.Group? && t == "group:" + reference)
            || (entity.ComponentInstance? && t == "component_instance:" + reference)
    ensures ParseEntity(name, t) == ParseReference(name, entity, reference)
  {
    hide ParseReference;
    if StartsWith(t, "group:") {
      entity, reference := Group, t[|"group:"|..];
    } else {
      entity, reference := ComponentInstance, t[|"component_instance:"|..];
    }
  }

  lemma ReferenceParsed(name: string, entity: EntityType, t: string)
    requires ParseReference(name, entity, t).Path?
    ensures t != "" && '/' !in t && Decode(name).Valid? && Decode(t).Valid?
    ensures ParseReference(name, entity, t) == Path(Decode(name).value, entity, Decode(t).value)
  {
    hide Decode, UntilSlash;
    SlashSplits(t);
  }

  // What is parsed is in the form of a path, with both tokens decoded.
  lemma ParsedIsPathText(t: string) returns (name: string, reference: string)
    requires Parse(t).Path?
    ensures var p := Parse(t);
            IsPathText(t, name, p.entity, reference) && Decode(name) == Valid(p.definition)
              && Decode(reference) == Valid(p.reference)
  {
    hide Decode, Parse, ParseEntity, ParseReference;
    var behind, entity;
    name, behind := NameParsed(t);
    entity, reference := EntityParsed(name, behind);
    ReferenceParsed(name, entity, reference);
  }

  // And every text in that form is parsed, where its tokens can be decoded.
  lemma PathTextIsParsed(t: string, name: string, entity: EntityType, reference: string)
    requires IsPathText(t, name, entity, reference)
    ensures Parse(t) ==
            if Decode(name).Valid? && Decode(reference).Valid? then
              Path(Decode(name).value, entity, Decode(reference).value)
            else NoPath
  {
    hide Decode, Parse, UntilSlash;
    var behind := TypeName(entity) + ":" + reference;
    assert behind == (if entity.Group? then "group:" else "component_instance:") + reference;
    SlashFound(name, behind);
    SlashFound(reference, "");
    ParseSplits(name, behind);
    ParseTail(name, entity, reference);
  }
}
