/** How the server reads and writes resource descriptions, and the path a resource is fetched from. */
module ResourceDescriptions {
  import opened Wrappers
  import opened Bytes
  import opened Codec
  import opened Numerals

  datatype ResourceInfo =
    | SwfLibrary
    | A3D
    | MovieClip
    | Sound
    | Model3DS
    | Map
    | PropLib
    | Image(alpha: bool)
    | MultiframeImage(fps: nat, height: nat, width: nat, frames: nat)
    | LocalizedImage(fileNames: seq<string>, alpha: bool)
    | Tanks3DS

  datatype ServerResource = ServerResource(id: nat, version: nat, lazy: bool, info: ResourceInfo)

  /** 64-bit ids and versions, 32-bit sizes. */
  predicate IsResource(r: ServerResource) {
    && r.id < U64_LIMIT && r.version < U64_LIMIT
    && (r.info.MultiframeImage? ==>
          r.info.fps < U32_LIMIT && r.info.height < U32_LIMIT && r.info.width < U32_LIMIT && r.info.frames < U32_LIMIT)
  }

  datatype JsonResource = JsonResource(
    idHigh: string,
    idLow: nat,
    versionHigh: string,
    versionLow: nat,
    resourceType: int,
    lazy: bool,
    alpha: Option<bool>,
    weight: Option<nat>,
    height: Option<nat>,
    numFrames: Option<nat>,
    fps: Option<nat>,
    fileNames: Option<seq<string>>)

  predicate IsU32(n: Option<nat>) {
    n.Some? ==> n.value < U32_LIMIT
  }

  predicate IsJsonResource(j: JsonResource) {
    j.idLow < U32_LIMIT && j.versionLow < U32_LIMIT
    && IsU32(j.weight) && IsU32(j.height) && IsU32(j.numFrames) && IsU32(j.fps)
  }

  datatype ReadError = MissingField | UnknownType | BadNumber

  function Need<T>(field: Option<T>): Result<T, ReadError> {
    match field
    case Some(value) => Ok(value)
    case None => Err(MissingField)
  }

  function ReadInfo(j: JsonResource): Result<ResourceInfo, ReadError> {
    match j.resourceType
    case 1 => Ok(SwfLibrary)
    case 2 => Ok(A3D)
    case 3 => Ok(MovieClip)
    case 4 => Ok(Sound)
    case 7 => Ok(Map)
    case 8 => Ok(PropLib)
    case 9 => Ok(Model3DS)
    case 10 =>
      var alpha :- Need(j.alpha);
      Ok(Image(alpha))
    case 11 =>
      var fps :- Need(j.fps);
      var height :- Need(j.height);
      var width :- Need(j.weight);
      var frames :- Need(j.numFrames);
      Ok(MultiframeImage(fps, height, width, frames))
    case 13 =>
      var fileNames :- Need(j.fileNames);
      var alpha :- Need(j.alpha);
      Ok(LocalizedImage(fileNames, alpha))
    case 17 => Ok(Tanks3DS)
    case _ => Err(UnknownType)
  }

  /** The high half shifted up, losing what does not fit into 64 bits, with the low half below it. */
  function Combine(high: nat, low: nat): (n: nat)
    requires low < U32_LIMIT
    ensures n < U64_LIMIT
  {
    (high % U32_LIMIT) * U32_LIMIT + low
  }

  function ReadNumber(high: string, low: nat): Result<nat, ReadError>
    requires low < U32_LIMIT
  {
    match ParseU64(high)
    case Some(h) => Ok(Combine(h, low))
    case None => Err(BadNumber)
  }

  function FromJson(j: JsonResource): Result<ServerResource, ReadError>
    requires IsJsonResource(j)
  {
    var info :- ReadInfo(j);
    var id :- ReadNumber(j.idHigh, j.idLow);
    var version :- ReadNumber(j.versionHigh, j.versionLow);
    Ok(ServerResource(id, version, j.lazy, info))
  }

  const EMPTY := JsonResource("", 0, "", 0, 0, false, None, None, None, None, None, None)

  /** The fields a kind of resource adds to the common ones. */
  function WithInfo(j: JsonResource, info: ResourceInfo): JsonResource {
    match info
    case SwfLibrary => j.(resourceType := 1)
    case A3D => j.(resourceType := 2)
    case MovieClip => j.(resourceType := 3)
    case Sound => j.(resourceType := 4)
    case Map => j.(resourceType := 7)
    case PropLib => j.(resourceType := 8)
    case Model3DS => j.(resourceType := 9)
    case Image(alpha) => j.(resourceType := 10, alpha := Some(alpha))
    case MultiframeImage(fps, height, width, frames) =>
      j.(resourceType := 11, fps := Some(fps), height := Some(height), weight := Some(width), numFrames := Some(frames))
    case LocalizedImage(fileNames, alpha) => j.(resourceType := 13, alpha := Some(alpha), fileNames := Some(fileNames))
    case Tanks3DS => j.(resourceType := 17)
  }

  function ToJson(r: ServerResource): JsonResource {
    WithInfo(EMPTY.(idHigh := Print(r.id / U32_LIMIT, 10), idLow := r.id % U32_LIMIT,
                    versionHigh := Print(r.version / U32_LIMIT, 10), versionLow := r.version % U32_LIMIT,
                    lazy := r.lazy), r.info)
  }

  // ---------------------------------------------------------------- descriptions

  lemma NumberRoundTrip(n: nat)
    requires n < U64_LIMIT
    ensures ReadNumber(Print(n / U32_LIMIT, 10), n % U32_LIMIT) == Ok(n)
  {
    hide Print, ParseU64;
    var high, low := n / U32_LIMIT, n % U32_LIMIT;
    assert high < U32_LIMIT && n == high * U32_LIMIT + low;
    ParsePrinted(high);
  }

  /** What is written is a valid description, and reading it gives the resource back, whatever its kind. */
  lemma WriteThenRead(r: ServerResource)
    requires IsResource(r)
    ensures IsJsonResource(ToJson(r)) && FromJson(ToJson(r)) == Ok(r)
  {
    hide ReadNumber, Print;
    NumberRoundTrip(r.id);
    NumberRoundTrip(r.version);
  }

  /** A high half that is written the way the server writes it. */
  predicate IsPrinted(high: string) {
    ParseU64(high).Some? && ParseU64(high).value < U32_LIMIT && high == Print(ParseU64(high).value, 10)
  }

  /** Only the fields of its kind are present. */
  predicate IsMinimal(j: JsonResource) {
    && (j.alpha.Some? <==> j.resourceType == 10 || j.resourceType == 13)
    && (j.weight.Some? <==> j.resourceType == 11) && (j.height.Some? <==> j.resourceType == 11)
    && (j.numFrames.Some? <==> j.resourceType == 11) && (j.fps.Some? <==> j.resourceType == 11)
    && (j.fileNames.Some? <==> j.resourceType == 13)
  }

  /**
    A description that can be read is written back as it was exactly when its numbers are printed canonically with
    high halves of 32 bits (a larger one loses bits) and it has no fields of other kinds.
   */
  lemma ReadThenWriteIff(j: JsonResource)
    requires IsJsonResource(j) && FromJson(j).Ok?
    ensures ToJson(FromJson(j).value) == j <==> IsPrinted(j.idHigh) && IsPrinted(j.versionHigh) && IsMinimal(j)
  {
    hide Print, ParseU64;
    var r := FromJson(j).value;
    HighHalf(j.idHigh, j.idLow);
    HighHalf(j.versionHigh, j.versionLow);
  }

  /** A description that reads back as the resource, in its canonical form, filled in field by field. */
  method AsJsonResource(r: ServerResource) returns (response: JsonResource)
    requires IsResource(r)
    ensures IsJsonResource(response) && FromJson(response) == Ok(r)
    ensures IsPrinted(response.idHigh) && IsPrinted(response.versionHigh) && IsMinimal(response)
  {
    response := EMPTY;
    response := response.(idHigh := Print(r.id / U32_LIMIT, 10));
    response := response.(idLow := r.id % U32_LIMIT);
    response := response.(versionHigh := Print(r.version / U32_LIMIT, 10));
    response := response.(versionLow := r.version % U32_LIMIT);
    response := response.(lazy := r.lazy);
    match r.info {
      case SwfLibrary => response := response.(resourceType := 1);
      case A3D => response := response.(resourceType := 2);
      case MovieClip => response := response.(resourceType := 3);
      case Sound => response := response.(resourceType := 4);
      case Map => response := response.(resourceType := 7);
      case PropLib => response := response.(resourceType := 8);
      case Model3DS => response := response.(resourceType := 9);
      case Image(alpha) =>
        response := response.(resourceType := 10);
        response := response.(alpha := Some(alpha));
      case MultiframeImage(fps, height, width, frames) =>
        response := response.(resourceType := 11);
        response := response.(fps := Some(fps));
        response := response.(height := Some(height));
        response := response.(weight := Some(width));
        response := response.(numFrames := Some(frames));
      case LocalizedImage(fileNames, alpha) =>
        response := response.(resourceType := 13);
        response := response.(alpha := Some(alpha));
        response := response.(fileNames := Some(fileNames));
      case Tanks3DS => response := response.(resourceType := 17);
    }
    assert response == ToJson(r);
    hide FromJson, ToJson, Print, IsPrinted, IsMinimal;
    WriteThenRead(r);
    ReadThenWriteIff(response);
  }

  lemma HighHalf(high: string, low: nat)
    requires low < U32_LIMIT && ParseU64(high).Some?
    ensures var n := ReadNumber(high, low).value;
            n % U32_LIMIT == low && (Print(n / U32_LIMIT, 10) == high <==> IsPrinted(high))
  {
    var h := ParseU64(high).value;
    var n := Combine(h, low);
    assert n / U32_LIMIT == h % U32_LIMIT;
    if Print(n / U32_LIMIT, 10) == high {
      ParsePrinted(n / U32_LIMIT);
    }
  }

  // ---------------------------------------------------------------- the numbers of the protocol

  /** The kinds by the numbers under which the protocol itself lists them; three more only the server has. */
  datatype ProtocolKind = KnownKind(number: int) | ServerOnly(number: int)

  function KindOf(info: ResourceInfo): ProtocolKind {
    match info
    case SwfLibrary => KnownKind(1)
    case A3D => KnownKind(2)
    case MovieClip => KnownKind(3)
    case Sound => KnownKind(4)
    case Model3DS => KnownKind(9)
    case Image(_) => KnownKind(10)
    case MultiframeImage(_, _, _, _) => KnownKind(11)
    case LocalizedImage(_, _) => KnownKind(13)
    case Map => ServerOnly(7)
    case PropLib => ServerOnly(8)
    case Tanks3DS => ServerOnly(17)
  }

  predicate IsKind(n: int) {
    n in {1, 2, 3, 4, 7, 8, 9, 10, 11, 13, 17}
  }

  /**
    What reading takes from where: the kind by its number, each detail from the field of its name (the width from the
    one called weight), and the low words as they are, below the high ones.
   */
  lemma ReadTakesEachField(j: JsonResource)
    requires IsJsonResource(j) && FromJson(j).Ok?
    ensures var r := FromJson(j).value;
            && KindOf(r.info).number == j.resourceType && IsKind(j.resourceType)
            && r.lazy == j.lazy
            && r.id % U32_LIMIT == j.idLow && r.version % U32_LIMIT == j.versionLow
            && ParseU64(j.idHigh).Some? && r.id / U32_LIMIT == ParseU64(j.idHigh).value % U32_LIMIT
            && ParseU64(j.versionHigh).Some? && r.version / U32_LIMIT == ParseU64(j.versionHigh).value % U32_LIMIT
            && (r.info.Image? ==> j.alpha == Some(r.info.alpha))
            && (r.info.MultiframeImage? ==>
                  && j.fps == Some(r.info.fps) && j.height == Some(r.info.height)
                  && j.weight == Some(r.info.width) && j.numFrames == Some(r.info.frames))
            && (r.info.LocalizedImage? ==> j.fileNames == Some(r.info.fileNames) && j.alpha == Some(r.info.alpha))
  {
    hide ParseU64;
    CombineSplits(ParseU64(j.idHigh).value, j.idLow);
    CombineSplits(ParseU64(j.versionHigh).value, j.versionLow);
  }

  lemma CombineSplits(high: nat, low: nat)
    requires low < U32_LIMIT
    ensures Combine(high, low) % U32_LIMIT == low && Combine(high, low) / U32_LIMIT == high % U32_LIMIT
  {
  }

  /** Which error: the details of the kind come first, then the id, then the version. */
  lemma ReadFailsIff(j: JsonResource)
    requires IsJsonResource(j)
    ensures FromJson(j) == Err(UnknownType) <==> !IsKind(j.resourceType)
    ensures FromJson(j) == Err(MissingField) <==>
              || (j.resourceType == 10 && j.alpha.None?)
              || (j.resourceType == 11 && (j.fps.None? || j.height.None? || j.weight.None? || j.numFrames.None?))
              || (j.resourceType == 13 && (j.fileNames.None? || j.alpha.None?))
    ensures FromJson(j) == Err(BadNumber) <==>
              ReadInfo(j).Ok? && (ParseU64(j.idHigh).None? || ParseU64(j.versionHigh).None?)
  {
    hide ParseU64;
  }

  // ---------------------------------------------------------------- paths

  /** Four decimal numbers from the bytes of the id, most significant first, and the version in octal. */
  function ResourcePath(id: nat, version: nat): string
    requires id < U64_LIMIT && version < U64_LIMIT
  {
    assert Pow256(8) == U64_LIMIT;
    var buffer := BigEndian(id, 8);
    Print(FromBigEndian(buffer[..4]), 10) + "/" +
    (Print(FromBigEndian(buffer[4..6]), 10) + "/" +
     (Print(buffer[6] as nat, 10) + "/" +
      (Print(buffer[7] as nat, 10) + "/" + Print(version, 8))))
  }

  function FirstSlash(s: string): nat {
    if s == [] || s[0] == '/' then 0 else 1 + FirstSlash(s[1..])
  }

  lemma {:induction false} FirstSlashEndsSegment(a: string, x: string)
    requires '/' !in a
    ensures FirstSlash(a + "/" + x) == |a|
  {
    if a == [] {
      assert (a + "/" + x)[0] == '/';
    } else {
      FirstSlashEndsSegment(a[1..], x);
      assert (a + "/" + x)[1..] == a[1..] + "/" + x;
    }
  }

  /** Text up to the first slash is determined by the whole. */
  lemma FirstSegment(a: string, x: string, b: string, y: string)
    requires '/' !in a && '/' !in b && a + "/" + x == b + "/" + y
    ensures a == b && x == y
  {
    var s, t := a + "/" + x, b + "/" + y;
    FirstSlashEndsSegment(a, x);
    FirstSlashEndsSegment(b, y);
    assert a == s[..|a|] == t[..|a|] == b;
    assert x == s[|a| + 1..] == t[|a| + 1..] == y;
  }

  lemma NumberSegment(m: nat, x: string, n: nat, y: string)
    requires Print(m, 10) + "/" + x == Print(n, 10) + "/" + y
    ensures m == n && x == y
  {
    FirstSegment(Print(m, 10), x, Print(n, 10), y);
    PrintIsInjective(m, n, 10);
  }

  lemma WordsDetermineBytes(s: seq<byte>, t: seq<byte>)
    requires |s| == |t| && FromBigEndian(s) == FromBigEndian(t)
    ensures s == t
  {
    BigEndianInverts(s);
    BigEndianInverts(t);
  }

  /** A text that spells a number in some base. */
  predicate Spells(s: string, n: nat, base: nat)
    requires IsBase(base)
  {
    s != [] && '/' !in s && ValueOf(s, base) == Some(n)
  }

  lemma PrintSpells(n: nat, base: nat)
    requires IsBase(base)
    ensures Spells(Print(n, base), n, base)
  {
    ValueOfPrint(n, base);
  }

  /** The words and bytes of an id, most significant first. */
  lemma WordsWeigh(s: seq<byte>)
    requires |s| == 8
    ensures FromBigEndian(s) ==
              ((FromBigEndian(s[..4]) * 0x1_0000 + FromBigEndian(s[4..6])) * 256 + s[6] as nat) * 256 + s[7] as nat
  {
    assert s == s[..4] + s[4..6] + [s[6]] + [s[7]];
    assert Pow256(1) == 256 && Pow256(2) == 0x1_0000 && forall b: byte :: FromBigEndian([b]) == b as nat;
    hide FromBigEndian;
    BigEndianWeight(s[..4], s[4..6]);
    BigEndianWeight(s[..4] + s[4..6], [s[6]]);
    BigEndianWeight(s[..4] + s[4..6] + [s[6]], [s[7]]);
  }

  /**
    The path read back by position: cut at the slashes it spells, in decimal, four numbers of 32, 16, 8 and 8 bits
    that weigh up to the id, the first one the most, and behind them, in octal, the version.
   */
  lemma PathSpells(id: nat, version: nat) returns (texts: seq<string>, numbers: seq<nat>)
    requires id < U64_LIMIT && version < U64_LIMIT
    ensures |texts| == 5 && |numbers| == 4
    ensures ResourcePath(id, version) ==
              texts[0] + "/" + (texts[1] + "/" + (texts[2] + "/" + (texts[3] + "/" + texts[4])))
    ensures forall i :: 0 <= i < 4 ==> Spells(texts[i], numbers[i], 10)
    ensures Spells(texts[4], version, 8)
    ensures numbers[0] < U32_LIMIT && numbers[1] < 0x1_0000 && numbers[2] < 256 && numbers[3] < 256
    ensures ((numbers[0] * 0x1_0000 + numbers[1]) * 256 + numbers[2]) * 256 + numbers[3] == id
  {
    hide Print, BigEndian, FromBigEndian, Spells;
    assert Pow256(8) == U64_LIMIT && Pow256(4) == U32_LIMIT && Pow256(2) == 0x1_0000;
    var s := BigEndian(id, 8);
    FromBigEndianInverts(id, 8);
    WordsWeigh(s);
    numbers := [FromBigEndian(s[..4]), FromBigEndian(s[4..6]), s[6] as nat, s[7] as nat];
    PrintSpells(numbers[0], 10);
    PrintSpells(numbers[1], 10);
    PrintSpells(numbers[2], 10);
    PrintSpells(numbers[3], 10);
    PrintSpells(version, 8);
    texts := [Print(numbers[0], 10), Print(numbers[1], 10), Print(numbers[2], 10), Print(numbers[3], 10), Print(version, 8)];
  }

  /** The two paths the original gives as examples. */
  lemma ExamplePaths()
    ensures ResourcePath(1395316, 1) == "0/21/74/116/1"
    ensures ResourcePath(1395316, 10) == "0/21/74/116/12"
  {
    ExamplePath(1);
    ExamplePath(10);
    ExampleNumerals();
    assert "0/21/74/116/" + "1" == "0/21/74/116/1" && "0/21/74/116/" + "12" == "0/21/74/116/12";
  }

  lemma ExamplePath(version: nat)
    requires version < U64_LIMIT
    ensures ResourcePath(1395316, version) == "0/21/74/116/" + Print(version, 8)
  {
    ExampleBytes();
    hide BigEndian;
    var s := BigEndian(1395316, 8);
    assert s[..4] == [0, 0, 0, 0] && s[4..6] == [0, 21] && s[6] == 74 && s[7] == 116;
    ExampleWords();
    hide FromBigEndian;
    ExampleNumerals();
    hide Print;
    ExampleText(Print(version, 8));
  }

  lemma ExampleText(v: string)
    ensures "0" + "/" + ("21" + "/" + ("74" + "/" + ("116" + "/" + v))) == "0/21/74/116/" + v
  {
    assert "0" + "/" + ("21" + "/" + ("74" + "/" + ("116" + "/" + v))) == ("0" + "/" + "21" + "/" + "74" + "/" + "116" + "/") + v;
    assert "0" + "/" + "21" + "/" + "74" + "/" + "116" + "/" == "0/21/74/116/";
  }

  lemma ExampleBytes()
    ensures Pow256(8) == U64_LIMIT && BigEndian(1395316, 8) == [0, 0, 0, 0, 0, 21, 74, 116]
  {
    assert Pow256(8) == U64_LIMIT;
    var s: seq<byte> := [0, 0, 0, 0, 0, 21, 74, 116];
    WordsWeigh(s);
    assert s[..4] == [0, 0, 0, 0] && s[4..6] == [0, 21];
    ExampleWords();
    BigEndianInverts(s);
  }

  lemma ExampleWords()
    ensures FromBigEndian([0, 0, 0, 0]) == 0 && FromBigEndian([0, 21]) == 21
  {
    assert Pow256(1) == 256 && forall b: byte :: FromBigEndian([b]) == b as nat;
    hide FromBigEndian;
    assert [0, 0, 0, 0] == ([0] + [0]) + [0] + [0] && [0, 21] == [0] + [21];
    BigEndianWeight([0], [21]);
    BigEndianWeight([0], [0]);
    BigEndianWeight([0] + [0], [0]);
    BigEndianWeight([0] + [0] + [0], [0]);
  }

  lemma ExampleNumerals()
    ensures Print(0, 10) == "0" && Print(21, 10) == "21" && Print(74, 10) == "74" && Print(116, 10) == "116"
    ensures Print(1, 8) == "1" && Print(10, 8) == "12"
  {
    assert Print(2, 10) == "2" && Print(7, 10) == "7" && Print(1, 10) == "1";
    assert Print(11, 10) == "11";
  }

  /** Different resources, and different versions of one, have different paths. */
  lemma PathsAreUnique(id: nat, version: nat, id': nat, version': nat)
    requires id < U64_LIMIT && version < U64_LIMIT && id' < U64_LIMIT && version' < U64_LIMIT
    requires ResourcePath(id, version) == ResourcePath(id', version')
    ensures id == id' && version == version'
  {
    hide Print, BigEndian, FromBigEndian;
    assert Pow256(8) == U64_LIMIT;
    var s, t := BigEndian(id, 8), BigEndian(id', 8);
    var x4, y4 := Print(version, 8), Print(version', 8);
    var x3, y3 := Print(s[7] as nat, 10) + "/" + x4, Print(t[7] as nat, 10) + "/" + y4;
    var x2, y2 := Print(s[6] as nat, 10) + "/" + x3, Print(t[6] as nat, 10) + "/" + y3;
    var x1, y1 := Print(FromBigEndian(s[4..6]), 10) + "/" + x2, Print(FromBigEndian(t[4..6]), 10) + "/" + y2;
    NumberSegment(FromBigEndian(s[..4]), x1, FromBigEndian(t[..4]), y1);
    NumberSegment(FromBigEndian(s[4..6]), x2, FromBigEndian(t[4..6]), y2);
    NumberSegment(s[6] as nat, x3, t[6] as nat, y3);
    NumberSegment(s[7] as nat, x4, t[7] as nat, y4);
    PrintIsInjective(version, version', 8);
    WordsDetermineBytes(s[..4], t[..4]);
    WordsDetermineBytes(s[4..6], t[4..6]);
    assert s == s[..4] + s[4..6] + [s[6], s[7]];
    assert t == t[..4] + t[4..6] + [t[6], t[7]];
    FromBigEndianInverts(id, 8);
    FromBigEndianInverts(id', 8);
  }
}
