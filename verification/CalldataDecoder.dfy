/** The calldata decoder as a recursive descent over the input
    (executor/crates/calldata/src/bin.rs:126-302). */
module CalldataDecoder {
  import opened Wrappers
  import opened Uleb
  import opened Calldata

  const DEFAULT_MAX_DEPTH: nat := 128

  /** `early` says whether a container header is refused when too few bytes are left for its
      elements, which the implementation does and a plain grammar does not. */
  datatype Config = Config(maxDepth: nat, utf8: Bytes -> bool, early: bool)

  function FetchSlice(data: Bytes, expected: nat): Parsed<Bytes> {
    if |data| < expected then Err(UnexpectedEnd(expected, |data|)) else Ok(data[..expected], data[expected..])
  }

  /** A size of more than 32 bits is refused. */
  function MapToSize(size: nat, rest: Bytes): Parsed<nat> {
    if BitLength(size) > BITS_IN_SIZE then Err(ContainerSizeTooLarge(BitLength(size))) else Ok(size, rest)
  }

  /** Like a chunk, with the contents checked to be UTF-8. */
  function Text(c: Config, size: nat, rest: Bytes): Parsed<Bytes> {
    match MapToSize(size, rest)
    case Err(e) => Err(e)
    case Ok(_, _) =>
      match FetchSlice(rest, size)
      case Err(e) => Err(e)
      case Ok(s, rest') => if c.utf8(s) then Ok(s, rest') else Err(InvalidUtf8)
  }

  function DecodeKey(c: Config, data: Bytes): (r: Parsed<Bytes>)
    ensures r.Ok? ==> |r.rest| < |data|
  {
    match Uleb.Read(data, 0)
    case Err(e) => Err(e)
    case Ok(size, rest) => Text(c, size, rest)
  }

  /** The checks a container header passes before its elements are read. */
  function ContainerHeader(c: Config, size: nat, unit: nat, rest: Bytes, depth: nat): Parsed<nat> {
    if depth >= c.maxDepth then Err(MaxDepthExceeded)
    else
      match MapToSize(size, rest)
      case Err(e) => Err(e)
      case Ok(_, _) =>
        if c.early && |rest| < unit * size then Err(UnexpectedEnd(unit * size, |rest|)) else Ok(size, rest)
  }

  function DecodeSpecial(low: Byte, val: nat, rest: Bytes): Parsed<Value> {
    if BitLength(val) > 5 then Err(InvalidSpecialValue(low))
    else if low == SPECIAL_NULL then Ok(Null, rest)
    else if low == SPECIAL_TRUE then Ok(Bool(true), rest)
    else if low == SPECIAL_FALSE then Ok(Bool(false), rest)
    else if low == SPECIAL_ADDR then
      match FetchSlice(rest, ADDRESS_SIZE)
      case Err(e) => Err(e)
      case Ok(raw, rest') => Ok(Address(raw), rest')
    else Err(InvalidSpecialValue(low))
  }

  function DecodeBlob(val: nat, rest: Bytes): Parsed<Value> {
    match MapToSize(val, rest)
    case Err(e) => Err(e)
    case Ok(_, _) =>
      match FetchSlice(rest, val)
      case Err(e) => Err(e)
      case Ok(s, rest') => Ok(Blob(s), rest')
  }

  function DecodeStr(c: Config, val: nat, rest: Bytes): Parsed<Value> {
    match Text(c, val, rest)
    case Err(e) => Err(e)
    case Ok(s, rest') => Ok(Str(s), rest')
  }

  /** One value, nested in `depth` containers. */
  function DecodeValue(c: Config, data: Bytes, depth: nat): (r: Parsed<Value>)
    ensures r.Ok? ==> |r.rest| < |data|
    decreases |data|, 0, 0
  {
    match Uleb.Read(data, 0)
    case Err(e) => Err(e)
    case Ok(head, rest) => DecodeBody(c, head % 8, head % 256, head / 8, rest, depth)
  }

  /** A value whose header has been read. */
  function DecodeBody(c: Config, tag: nat, low: Byte, val: nat, rest: Bytes, depth: nat): (r: Parsed<Value>)
    requires tag < 8
    ensures r.Ok? ==> |r.rest| <= |rest|
    decreases |rest|, 2, 0
  {
    if tag == TYPE_SPECIAL then DecodeSpecial(low, val, rest)
    else if tag == TYPE_BYTES then DecodeBlob(val, rest)
    else if tag == TYPE_STR then DecodeStr(c, val, rest)
    else if tag == TYPE_PINT then Ok(Number(val), rest)
    else if tag == TYPE_NINT then Ok(Number(-(val + 1)), rest)
    else if tag == TYPE_ARR then
      match ContainerHeader(c, val, 1, rest, depth) {
        case Err(e) => Err(e)
        case Ok(_, _) =>
          match DecodeItems(c, rest, val, depth + 1)
          case Err(e) => Err(e)
          case Ok(items, rest') => Ok(Array(items), rest')
      }
    else if tag == TYPE_MAP then
      match ContainerHeader(c, val, 2, rest, depth) {
        case Err(e) => Err(e)
        case Ok(_, _) =>
          match DecodeEntries(c, rest, val, depth + 1, None)
          case Err(e) => Err(e)
          case Ok(es, rest') => Ok(Map(es), rest')
      }
    else Err(InvalidTag(tag))
  }

  function DecodeItems(c: Config, data: Bytes, count: nat, depth: nat): (r: Parsed<seq<Value>>)
    ensures r.Ok? ==> |r.value| == count && |r.rest| + count <= |data|
    decreases |data|, 1, count
  {
    if count == 0 then Ok([], data)
    else
      match DecodeValue(c, data, depth)
      case Err(e) => Err(e)
      case Ok(v, rest) =>
        match DecodeItems(c, rest, count - 1, depth)
        case Err(e) => Err(e)
        case Ok(vs, rest') => Ok([v] + vs, rest')
  }

  /** `prev` is the key before these entries, which the next key must exceed. */
  function DecodeEntries(c: Config, data: Bytes, count: nat, depth: nat, prev: Option<Bytes>): (r: Parsed<seq<Entry>>)
    ensures r.Ok? ==> |r.value| == count && |r.rest| + 2 * count <= |data|
    decreases |data|, 1, count
  {
    if count == 0 then Ok([], data)
    else
      match DecodeKey(c, data)
      case Err(e) => Err(e)
      case Ok(key, rest) =>
        if prev.Some? && !Less(prev.value, key) then Err(InvalidMapOrdering(prev.value, key))
        else
          match DecodeValue(c, rest, depth)
          case Err(e) => Err(e)
          case Ok(v, rest') =>
            match DecodeEntries(c, rest', count - 1, depth, Some(key))
            case Err(e) => Err(e)
            case Ok(es, rest'') => Ok([Entry(key, v)] + es, rest'')
  }

  /** `decode`: one value and nothing after it. */
  function Decode(c: Config, data: Bytes): Parsed<Value> {
    match DecodeValue(c, data, 0)
    case Err(e) => Err(e)
    case Ok(v, rest) => if rest != [] then Err(UnexpectedEnd(0, |rest|)) else Ok(v, [])
  }
}
