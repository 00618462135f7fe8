/**
 * `MappingName`: the name of a mapping namespace (obfuscated, intermediary,
 * yarn.<build>, mojang, searge, mcp.<channel>.<version>), with its identifier,
 * equality, hash and ordering. Module `MappingNames` is the current
 * generation; `OldMappingNames` is the earlier one, which has identifiers only.
 */
module MappingNames {
  import opened Wrappers
  import opened Jvm
  import opened Text

  /** `MappingType`: the namespace kind. */
  datatype MappingType = OBFUSCATED | INTERMEDIARY | YARN | MOJANG | SEARGE | MCP

  datatype MappingName =
    | Obfuscated
    | YarnIntermediary
    | Yarn(buildNumber: I32)
    | Mojang
    | Searge
    | Mcp(channel: string, version: I32)

  function Type(n: MappingName): MappingType {
    match n
    case Obfuscated => OBFUSCATED
    case YarnIntermediary => INTERMEDIARY
    case Yarn(_) => YARN
    case Mojang => MOJANG
    case Searge => SEARGE
    case Mcp(_, _) => MCP
  }

  /** `identifier`, which is also what `toString` prints. */
  function Identifier(n: MappingName): (r: string)
    ensures |r| >= 4
  {
    match n
    case Obfuscated => "obfuscated"
    case YarnIntermediary => "intermediary"
    case Yarn(b) => "yarn." + IntToString(b)
    case Mojang => "mojang"
    case Searge => "searge"
    case Mcp(c, v) => "mcp." + c + "." + IntToString(v)
  }

  /** `equals`: type and identifier, plus the build number or channel and version. */
  predicate Equals(a: MappingName, b: MappingName) {
    var base := Type(a) == Type(b) && Identifier(a) == Identifier(b);
    match a
    case Yarn(x) => b.Yarn? && base && x == b.buildNumber && Identifier(a) == Identifier(b)
    case Mcp(c, v) => b.Mcp? && base && c == b.channel && v == b.version && Identifier(a) == Identifier(b)
    case _ => base
  }

  /**
   * `hashCode`: 31-fold over the type's hash, the subclass fields and the
   * identifier. The enum's own hash is identity-based, so it is a parameter.
   */
  function HashCode(n: MappingName, typeHash: MappingType -> U32): U32 {
    var base := Wrap32(31 * typeHash(Type(n)) + StringHash(Identifier(n)));
    match n
    case Yarn(b) => Wrap32(31 * Wrap32(31 * base + Wrap32(b)) + StringHash(Identifier(n)))
    case Mcp(c, v) =>
      Wrap32(31 * Wrap32(31 * Wrap32(31 * base + StringHash(c)) + Wrap32(v)) + StringHash(Identifier(n)))
    case _ => base
  }

  /** `compareTo`: Yarn by build number, Mcp by channel then version, otherwise by identifier. */
  function CompareTo(a: MappingName, b: MappingName): int {
    if a.Yarn? && b.Yarn? then CompareInt(a.buildNumber, b.buildNumber)
    else if a.Mcp? && b.Mcp? then
      var v := Compare(a.channel, b.channel);
      if v == 0 then CompareInt(a.version, b.version) else v
    else Compare(Identifier(a), Identifier(b))
  }

  /** The `Mcp(channel, version: String)` constructor: the version is read as an `Int`. */
  function McpOfString(channel: string, version: string): (r: Result<MappingName>)
    ensures r.Ok? <==> ParseInt(version).Some?
    ensures r.Ok? ==> r.value == Mcp(channel, ParseInt(version).value)
  {
    match ParseInt(version)
    case None => Err("NumberFormatException")
    case Some(v) => Ok(Mcp(channel, v))
  }

  /** `equals` is exactly equality of the values, and equal names hash equally. */
  lemma EqualsIsIdentity(a: MappingName, b: MappingName, typeHash: MappingType -> U32)
    ensures Equals(a, b) <==> a == b
    ensures Equals(a, b) ==> HashCode(a, typeHash) == HashCode(b, typeHash)
  {
  }

  /** The Mcp string constructor reads back a version printed by `toString`. */
  lemma McpOfStringIdentifier(channel: string, version: I32)
    ensures McpOfString(channel, IntToString(version)) == Ok(Mcp(channel, version))
    ensures Identifier(Mcp(channel, version)) == "mcp." + channel + "." + IntToString(version)
  {
    ParseIntToString(version);
  }

  /**
   * The position of each kind among the identifiers in `String.compareTo` order:
   * "intermediary" < "mcp.…" < "mojang" < "obfuscated" < "searge" < "yarn.…".
   */
  function Rank(n: MappingName): nat {
    match n
    case YarnIntermediary => 0
    case Mcp(_, _) => 1
    case Mojang => 2
    case Obfuscated => 3
    case Searge => 4
    case Yarn(_) => 5
  }

  /** The first character of each kind's identifier. */
  function Lead(n: MappingName): char {
    match n
    case YarnIntermediary => 'i'
    case Mcp(_, _) => 'm'
    case Mojang => 'm'
    case Obfuscated => 'o'
    case Searge => 's'
    case Yarn(_) => 'y'
  }

  lemma IdentifierLead(n: MappingName)
    ensures |Identifier(n)| >= 2 && Identifier(n)[0] == Lead(n)
    ensures n.Mcp? ==> Identifier(n)[1] == 'c'
    ensures n == Mojang ==> Identifier(n)[1] == 'o'
  {
  }

  /** Names of different kinds are ordered by kind. */
  lemma CompareByRank(a: MappingName, b: MappingName)
    requires Rank(a) < Rank(b)
    ensures CompareTo(a, b) < 0
  {
    var x, y := Identifier(a), Identifier(b);
    IdentifierLead(a);
    IdentifierLead(b);
    assert !(a.Yarn? && b.Yarn?) && !(a.Mcp? && b.Mcp?);
    if Lead(a) == Lead(b) {
      assert a.Mcp? && b == Mojang;
      assert x[1..][0] == 'c' && y[1..][0] == 'o';
      assert Compare(x, y) == Compare(x[1..], y[1..]);
    } else {
      assert Code(x[0]) < Code(y[0]);
    }
  }

  /** Two Yarn names or two Mcp names: the order of the builds or of the (channel, version) pairs. */
  lemma CompareSameRank(a: MappingName, b: MappingName)
    requires (a.Yarn? && b.Yarn?) || (a.Mcp? && b.Mcp? && Bmp(a.channel) && Bmp(b.channel))
    ensures CompareTo(a, b) == 0 <==> a == b
    ensures CompareTo(a, b) == -CompareTo(b, a)
  {
    if a.Mcp? {
      var x, y := a.channel, b.channel;
      CompareZero(x, y);
      CompareAntisymmetric(x, y);
      assert a == b <==> x == y && a.version == b.version;
    }
  }

  /**
   * `compareTo` is a total order: antisymmetric, zero exactly on equal names,
   * and transitive (Mcp channels from the Basic Multilingual Plane).
   */
  lemma CompareToOrder(a: MappingName, b: MappingName, c: MappingName)
    requires a.Mcp? ==> Bmp(a.channel)
    requires b.Mcp? ==> Bmp(b.channel)
    requires c.Mcp? ==> Bmp(c.channel)
    ensures CompareTo(a, b) == -CompareTo(b, a)
    ensures CompareTo(a, b) == 0 <==> a == b
    ensures CompareTo(a, b) < 0 && CompareTo(b, c) < 0 ==> CompareTo(a, c) < 0
  {
    Antisymmetric(a, b);
    Antisymmetric(b, c);
    Antisymmetric(a, c);
    if CompareTo(a, b) < 0 && CompareTo(b, c) < 0 {
      Transitive(a, b, c);
    }
  }

  lemma Antisymmetric(a: MappingName, b: MappingName)
    requires a.Mcp? ==> Bmp(a.channel)
    requires b.Mcp? ==> Bmp(b.channel)
    ensures CompareTo(a, b) == -CompareTo(b, a)
    ensures CompareTo(a, b) == 0 <==> a == b
  {
    if Rank(a) < Rank(b) {
      CompareByRank(a, b);
      CompareAntisymmetric(Identifier(a), Identifier(b));
    } else if Rank(b) < Rank(a) {
      CompareByRank(b, a);
      CompareAntisymmetric(Identifier(a), Identifier(b));
    } else if a.Yarn? || a.Mcp? {
      CompareSameRank(a, b);
    } else {
      CompareSelf(Identifier(a));
    }
  }

  /** A name below another is of the same kind or of a lower one. */
  lemma RankMonotone(a: MappingName, b: MappingName)
    requires a.Mcp? ==> Bmp(a.channel)
    requires b.Mcp? ==> Bmp(b.channel)
    requires CompareTo(a, b) < 0
    ensures Rank(a) <= Rank(b)
  {
    if Rank(b) < Rank(a) {
      CompareByRank(b, a);
      Antisymmetric(a, b);
    }
  }

  lemma Transitive(a: MappingName, b: MappingName, c: MappingName)
    requires a.Mcp? ==> Bmp(a.channel)
    requires b.Mcp? ==> Bmp(b.channel)
    requires c.Mcp? ==> Bmp(c.channel)
    requires CompareTo(a, b) < 0 && CompareTo(b, c) < 0
    ensures CompareTo(a, c) < 0
  {
    RankMonotone(a, b);
    RankMonotone(b, c);
    if Rank(a) < Rank(c) {
      CompareByRank(a, c);
    } else if a.Mcp? {
      McpTransitive(a, b, c);
    } else if !a.Yarn? {
      CompareSelf(Identifier(a));
    }
  }

  lemma McpTransitive(a: MappingName, b: MappingName, c: MappingName)
    requires a.Mcp? && b.Mcp? && c.Mcp?
    requires Bmp(a.channel) && Bmp(b.channel) && Bmp(c.channel)
    requires CompareTo(a, b) < 0 && CompareTo(b, c) < 0
    ensures CompareTo(a, c) < 0
  {
    var x, y, z := a.channel, b.channel, c.channel;
    CompareZero(x, y);
    CompareZero(y, z);
    CompareZero(x, z);
    if Compare(x, y) < 0 && Compare(y, z) < 0 {
      CompareTransitive(x, y, z);
    }
  }
}

/**
 * The earlier `MappingName`: identifiers and `toString` only. `Yarn` and `Mcp`
 * are plain classes without an `equals` override, so two of them are equal
 * only when they are the same object; the payload classes carry that identity.
 */
module OldMappingNames {
  import opened Jvm
  import opened Text
  import MappingNames

  class YarnName {
    const buildNumber: I32
    constructor(buildNumber: I32)
      ensures this.buildNumber == buildNumber
    {
      this.buildNumber := buildNumber;
    }
  }

  class McpName {
    const channel: string
    const version: I32
    constructor(channel: string, version: I32)
      ensures this.channel == channel && this.version == version
    {
      this.channel := channel;
      this.version := version;
    }
  }

  datatype MappingName =
    | Obfuscated
    | YarnIntermediary
    | Yarn(yarn: YarnName)
    | Mojang
    | Searge
    | Mcp(mcp: McpName)

  /** The identifier, as printed by `toString`. */
  function Identifier(n: MappingName): string {
    match n
    case Obfuscated => "obfuscated"
    case YarnIntermediary => "intermediary"
    case Yarn(y) => "yarn." + IntToString(y.buildNumber)
    case Mojang => "mojang"
    case Searge => "searge"
    case Mcp(m) => "mcp." + m.channel + "." + IntToString(m.version)
  }

  /** The value of the current generation naming the same namespace. */
  function Current(n: MappingName): MappingNames.MappingName {
    match n
    case Obfuscated => MappingNames.Obfuscated
    case YarnIntermediary => MappingNames.YarnIntermediary
    case Yarn(y) => MappingNames.Yarn(y.buildNumber)
    case Mojang => MappingNames.Mojang
    case Searge => MappingNames.Searge
    case Mcp(m) => MappingNames.Mcp(m.channel, m.version)
  }

  /** Both generations print the same identifier. */
  lemma SameIdentifier(n: MappingName)
    ensures Identifier(n) == MappingNames.Identifier(Current(n))
  {
  }

  /**
   * Two `Yarn` names built from the same build number print alike yet are
   * different names, where the current generation calls them equal.
   */
  method TwoYarns(buildNumber: I32) returns (a: MappingName, b: MappingName)
    ensures a.Yarn? && b.Yarn? && a != b
    ensures Identifier(a) == Identifier(b)
    ensures MappingNames.Equals(Current(a), Current(b))
  {
    var x := new YarnName(buildNumber);
    var y := new YarnName(buildNumber);
    a, b := Yarn(x), Yarn(y);
  }
}
