/** Server descriptions and the filter that selects among them (server_info.rs, filter.rs). */
module Types {
  import opened Prelude

  type Ip = bytes

  datatype Addr = Addr(ip: Ip, port: u16)

  datatype Family = V4 | V6 {
    /** Size of an address and a port on the wire. */
    function Size(): nat {
      if V4? then 6 else 18
    }

    predicate Fits(a: Addr) {
      |a.ip| + 2 == Size()
    }

    /** Size of the buffer that answers are written to. */
    function BufferSize(): nat {
      if V4? then 512 else 1280
    }
  }

  datatype Version = Version(major: byte, minor: byte, patch: byte)

  predicate VersionLess(a: Version, b: Version) {
    || a.major < b.major
    || (a.major == b.major && (a.minor < b.minor || (a.minor == b.minor && a.patch < b.patch)))
  }

  /** The position of a version in the order of versions. */
  function VersionNumber(v: Version): nat {
    v.major * 0x1_0000 + v.minor * 0x100 + v.patch
  }

  lemma VersionLessIff(a: Version, b: Version)
    ensures VersionLess(a, b) <==> VersionNumber(a) < VersionNumber(b)
  {
  }

  datatype Region =
    | USEastCoast | USWestCoast | SouthAmerica | Europe | Asia | Australia | MiddleEast | Africa | RestOfTheWorld

  datatype ServerType = Dedicated | Local | Proxy | UnknownType

  datatype Os = UnknownOs | Linux | Windows | Mac

  function ServerTypeByte(ty: ServerType): byte {
    match ty
    case Dedicated => 100
    case Local => 108
    case Proxy => 112
    case UnknownType => 0
  }

  function ServerTypeOf(b: byte): ServerType {
    match b
    case 100 => Dedicated
    case 108 => Local
    case 112 => Proxy
    case _ => UnknownType
  }

  function OsByte(os: Os): byte {
    match os
    case UnknownOs => 0
    case Linux => 108
    case Windows => 119
    case Mac => 109
  }

  function OsOf(b: byte): Os {
    match b
    case 108 => Linux
    case 119 => Windows
    case 109 => Mac
    case _ => UnknownOs
  }

  function RegionByte(region: Region): byte {
    match region
    case USEastCoast => 0
    case USWestCoast => 1
    case SouthAmerica => 2
    case Europe => 3
    case Asia => 4
    case Australia => 5
    case MiddleEast => 6
    case Africa => 7
    case RestOfTheWorld => 0xff
  }

  function RegionOf(b: byte): Result<Region, CursorError> {
    match b
    case 0 => Ok(USEastCoast)
    case 1 => Ok(USWestCoast)
    case 2 => Ok(SouthAmerica)
    case 3 => Ok(Europe)
    case 4 => Ok(Asia)
    case 5 => Ok(Australia)
    case 6 => Ok(MiddleEast)
    case 7 => Ok(Africa)
    case 0xff => Ok(RestOfTheWorld)
    case _ => Err(InvalidNumber)
  }

  /** The letters of types and systems; every other byte means unknown. */
  lemma TypeLetters(b: byte)
    ensures ServerTypeOf(b) == Dedicated <==> b == 'd' as int
    ensures ServerTypeOf(b) == Local <==> b == 'l' as int
    ensures ServerTypeOf(b) == Proxy <==> b == 'p' as int
    ensures OsOf(b) == Linux <==> b == 'l' as int
    ensures OsOf(b) == Windows <==> b == 'w' as int
    ensures OsOf(b) == Mac <==> b == 'm' as int
  {
  }

  /** Regions are numbered from 0 to 7, but for the rest of the world, which is 255. */
  lemma RegionOfIff(b: byte)
    ensures RegionOf(b).Err? <==> 8 <= b < 255
    ensures RegionOf(b).Ok? ==> RegionByte(RegionOf(b).value) == b
    ensures RegionOf(0) == Ok(USEastCoast) && RegionOf(1) == Ok(USWestCoast) && RegionOf(2) == Ok(SouthAmerica)
    ensures RegionOf(3) == Ok(Europe) && RegionOf(4) == Ok(Asia) && RegionOf(5) == Ok(Australia)
    ensures RegionOf(6) == Ok(MiddleEast) && RegionOf(7) == Ok(Africa) && RegionOf(255) == Ok(RestOfTheWorld)
  {
  }

  /** ServerFlags and FilterFlags are sets of their defined bits. */
  datatype ServerFlag = SfBots | SfPassword | SfSecure | SfLan | SfNat

  datatype FilterFlag =
    | FfDedicated | FfSecure | FfPassword | FfEmpty | FfFull | FfNoPlayers | FfNat | FfLan | FfBots

  function WithFlag<F(==)>(flags: set<F>, flag: F, value: bool): set<F> {
    if value then flags + {flag} else flags - {flag}
  }

  datatype ServerAdd = ServerAdd(
    gamedir: bytes, map_: bytes, version: Version, challenge: u32, serverType: ServerType, os: Os,
    region: Region, protocol: byte, players: byte, max: byte, bots: byte, flags: set<ServerFlag>)

  datatype ServerInfo = ServerInfo(
    version: Version, protocol: byte, gamedir: bytes, map_: bytes, flags: set<FilterFlag>, region: Region)

  function FilterFlags(info: ServerAdd): set<FilterFlag> {
    (if info.serverType == Dedicated then {FfDedicated} else {}) +
    (if SfSecure in info.flags then {FfSecure} else {}) +
    (if SfPassword in info.flags then {FfPassword} else {}) +
    (if info.players == 0 then {FfEmpty, FfNoPlayers} else {}) +
    (if info.players >= info.max then {FfFull} else {}) +
    (if SfNat in info.flags then {FfNat} else {}) +
    (if SfLan in info.flags then {FfLan} else {}) +
    (if SfBots in info.flags then {FfBots} else {})
  }

  /** What each flag of the filter says about the details that a server registers with. */
  predicate HasFlag(msg: ServerAdd, flag: FilterFlag) {
    match flag
    case FfDedicated => msg.serverType == Dedicated
    case FfSecure => SfSecure in msg.flags
    case FfPassword => SfPassword in msg.flags
    case FfEmpty => msg.players == 0
    case FfFull => msg.players >= msg.max
    case FfNoPlayers => msg.players == 0
    case FfNat => SfNat in msg.flags
    case FfLan => SfLan in msg.flags
    case FfBots => SfBots in msg.flags
  }

  lemma FilterFlagsIff(msg: ServerAdd, flag: FilterFlag)
    ensures flag in FilterFlags(msg) <==> HasFlag(msg, flag)
  {
  }

  function NewServerInfo(info: ServerAdd): ServerInfo {
    ServerInfo(info.version, info.protocol, info.gamedir, info.map_, FilterFlags(info), info.region)
  }

  datatype Filter = Filter(
    gamedir: Option<bytes>, map_: Option<bytes>, clver: Option<Version>, protocol: Option<byte>,
    os: Option<bytes>, arch: Option<bytes>, branch: Option<bytes>, commit: Option<bytes>,
    buildnum: Option<u32>, key: Option<u32>, flags: set<FilterFlag>, mask: set<FilterFlag>)
  {
    predicate Matches(info: ServerInfo) {
      !(|| info.flags * mask != flags
        || (gamedir.Some? && gamedir.value != info.gamedir)
        || (map_.Some? && map_.value != info.map_)
        || (protocol.Some? && protocol.value != info.protocol))
    }

    /** Whether all of `other` is set, when the mask says anything about all of it. */
    function ContainsFlags(other: set<FilterFlag>): Option<bool> {
      if other <= mask then Some(other <= flags) else None
    }

    /** The flags part of a match reads flag by flag: each flag the mask names must have the requested
        value. A filter that requests a flag outside its own mask matches no server at all. */
    lemma MatchesFlagByFlag(info: ServerInfo)
      ensures Matches(info) <==>
        && flags <= mask
        && (forall f | f in mask :: f in info.flags <==> ContainsFlags({f}) == Some(true))
        && gamedir in {None, Some(info.gamedir)}
        && map_ in {None, Some(info.map_)}
        && protocol in {None, Some(info.protocol)}
    {
      if flags <= mask && (forall f | f in mask :: f in info.flags <==> ContainsFlags({f}) == Some(true)) {
        forall f
          ensures f in info.flags * mask <==> f in flags
        {
          assert f in mask ==> (ContainsFlags({f}) == Some(true) <==> f in flags);
        }
        assert info.flags * mask == flags;
      }
      if info.flags * mask == flags {
        forall f | f in mask
          ensures f in info.flags <==> ContainsFlags({f}) == Some(true)
        {
          assert {f} <= mask;
          assert f in info.flags <==> f in info.flags * mask;
        }
      }
    }
  }

  /** A request for a list of servers. */
  datatype ServerQuery = ServerQuery(region: Region, last: bytes, filter: Filter)
}
