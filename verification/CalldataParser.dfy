/** The imperative decoder: a cursor over the input and an explicit stack of open containers
    (executor/crates/calldata/src/bin.rs:70-334), proved equal to the recursive descent. */
module CalldataParser {
  import opened Wrappers
  import opened Uleb
  import opened Calldata
  import opened CalldataDecoder
  import CalldataTheorems
  import CalldataFormat

  /** An open container: what was read of it and how many elements are still to come. */
  datatype Frame =
    | ArrayFrame(items: seq<Value>, remaining: nat)
    | MapFrame(entries: seq<Entry>, remaining: nat, currentKey: Bytes)

  /** `BTreeMap::insert`: entries stay in key order, an equal key is replaced. */
  function Insert(es: seq<Entry>, e: Entry): seq<Entry> {
    if es == [] then [e]
    else if es[0].key == e.key then [e] + es[1..]
    else if Less(e.key, es[0].key) then [e] + es
    else [es[0]] + Insert(es[1..], e)
  }

  /** A key above all others is appended. */
  lemma {:induction false} InsertLast(es: seq<Entry>, e: Entry)
    requires Ascending(es) && (es != [] ==> Less(es[|es| - 1].key, e.key))
    ensures Insert(es, e) == es + [e]
    ensures Ascending(es + [e])
  {
    hide Less;
    if es != [] {
      LastIsGreatest(es, e.key);
      NotBefore(es[0].key, e.key);
      InsertLast(es[1..], e);
      assert es + [e] == [es[0]] + (es[1..] + [e]);
      assert es[1..] + [e] != [] && (es[1..] + [e])[0] == if |es| > 1 then es[1] else e;
    }
  }

  lemma {:induction false} NotBefore(a: Bytes, b: Bytes)
    requires Less(a, b)
    ensures !Less(b, a) && a != b
  {
    LessIrreflexive(a);
    if Less(b, a) { LessTransitive(a, b, a); }
  }

  lemma {:induction false} LastIsGreatest(es: seq<Entry>, key: Bytes)
    requires Ascending(es) && es != [] && Less(es[|es| - 1].key, key)
    ensures Less(es[0].key, key)
  {
    if |es| > 1 {
      LastIsGreatest(es[1..], key);
      LessTransitive(es[0].key, es[1].key, key);
    }
  }

  ghost predicate OpenFrame(f: Frame) {
    f.remaining > 0
    && (f.MapFrame? ==> Ascending(f.entries) && (f.entries != [] ==> Less(f.entries[|f.entries| - 1].key, f.currentKey)))
  }

  ghost predicate OpenStack(stack: seq<Frame>) {
    forall i :: 0 <= i < |stack| ==> OpenFrame(stack[i])
  }

  ghost function Pop(stack: seq<Frame>): seq<Frame>
    requires stack != []
  {
    stack[..|stack| - 1]
  }

  /** What the recursive descent still does once the innermost open value is `v`. */
  ghost function Feed(c: Config, stack: seq<Frame>, v: Value, rest: Bytes): Parsed<Value>
    requires OpenStack(stack)
    decreases |stack|
  {
    if stack == [] then Ok(v, rest)
    else
      match stack[|stack| - 1]
      case ArrayFrame(items, remaining) => (
        match DecodeItems(c, rest, remaining - 1, |stack|)
        case Err(e) => Err(e)
        case Ok(vs, rest') => Feed(c, Pop(stack), Array(items + [v] + vs), rest')
      )
      case MapFrame(es, remaining, key) =>
        match DecodeEntries(c, rest, remaining - 1, |stack|, Some(key))
        case Err(e) => Err(e)
        case Ok(more, rest') => Feed(c, Pop(stack), Map(es + [Entry(key, v)] + more), rest')
  }

  /** What the recursive descent still does when a value is to be read inside `stack`. */
  ghost function Resume(c: Config, stack: seq<Frame>, data: Bytes): Parsed<Value>
    requires OpenStack(stack)
  {
    match DecodeValue(c, data, |stack|)
    case Err(e) => Err(e)
    case Ok(v, rest) => Feed(c, stack, v, rest)
  }

  /** An array that still misses elements goes on with the next one. */
  lemma {:induction false} NextItem(c: Config, stack: seq<Frame>, items: seq<Value>, remaining: nat, v: Value, rest: Bytes)
    requires remaining > 1 && OpenStack(stack)
    ensures Feed(c, stack + [ArrayFrame(items, remaining)], v, rest)
         == Resume(c, stack + [ArrayFrame(items + [v], remaining - 1)], rest)
  {
    var s, t := stack + [ArrayFrame(items, remaining)], stack + [ArrayFrame(items + [v], remaining - 1)];
    assert Pop(s) == stack == Pop(t);
    var d := DecodeValue(c, rest, |s|);
    if d.Ok? {
      var ds := DecodeItems(c, d.rest, remaining - 2, |s|);
      if ds.Ok? {
        assert items + [v] + ([d.value] + ds.value) == items + [v] + [d.value] + ds.value;
      }
    }
  }

  /** A map that still misses entries goes on with the next key and its value. */
  lemma {:induction false} NextEntry(c: Config, stack: seq<Frame>, es: seq<Entry>, remaining: nat, key: Bytes, v: Value, rest: Bytes)
    requires remaining > 1 && OpenStack(stack) && OpenFrame(MapFrame(es, remaining, key))
    ensures var s := stack + [MapFrame(es, remaining, key)];
            var k := DecodeKey(c, rest);
            Ascending(es + [Entry(key, v)]) &&
            Feed(c, s, v, rest) ==
              if k.Err? then Err(k.error)
              else if !Less(key, k.value) then Err(InvalidMapOrdering(key, k.value))
              else Resume(c, stack + [MapFrame(es + [Entry(key, v)], remaining - 1, k.value)], k.rest)
  {
    hide DecodeValue, DecodeKey, Less, Insert;
    var s := stack + [MapFrame(es, remaining, key)];
    InsertLast(es, Entry(key, v));
    var k := DecodeKey(c, rest);
    assert Pop(s) == stack;
    if k.Ok? && Less(key, k.value) {
      var t := stack + [MapFrame(es + [Entry(key, v)], remaining - 1, k.value)];
      assert Pop(t) == stack;
      var d := DecodeValue(c, k.rest, |s|);
      if d.Ok? {
        var ds := DecodeEntries(c, d.rest, remaining - 2, |s|, Some(k.value));
        if ds.Ok? {
          assert es + [Entry(key, v)] + ([Entry(k.value, d.value)] + ds.value)
              == es + [Entry(key, v)] + [Entry(k.value, d.value)] + ds.value;
        }
      }
    }
  }

  /** A container that got its last element is itself the completed value. */
  lemma {:induction false} LastElement(c: Config, stack: seq<Frame>, f: Frame, v: Value, rest: Bytes)
    requires OpenStack(stack) && OpenFrame(f) && f.remaining == 1
    ensures Feed(c, stack + [f], v, rest)
         == Feed(c, stack, if f.ArrayFrame? then Array(f.items + [v]) else Map(f.entries + [Entry(f.currentKey, v)]), rest)
  {
    assert Pop(stack + [f]) == stack;
    assert f.ArrayFrame? ==> f.items + [v] + [] == f.items + [v];
    assert f.MapFrame? ==> f.entries + [Entry(f.currentKey, v)] + [] == f.entries + [Entry(f.currentKey, v)];
  }

  /** A container with elements is read by opening a frame for it. */
  lemma {:induction false} OpenArray(c: Config, stack: seq<Frame>, size: nat, rest: Bytes)
    requires OpenStack(stack) && size > 0
    ensures Resume(c, stack + [ArrayFrame([], size)], rest)
         == match DecodeItems(c, rest, size, |stack| + 1)
            case Err(e) => Err(e)
            case Ok(items, rest') => Feed(c, stack, Array(items), rest')
  {
    var s := stack + [ArrayFrame([], size)];
    assert Pop(s) == stack;
    var d := DecodeValue(c, rest, |s|);
    if d.Ok? {
      var ds := DecodeItems(c, d.rest, size - 1, |s|);
      if ds.Ok? { assert [] + [d.value] + ds.value == [d.value] + ds.value; }
    }
  }

  lemma {:induction false} OpenMap(c: Config, stack: seq<Frame>, size: nat, rest: Bytes, key: Bytes, after: Bytes)
    requires OpenStack(stack) && size > 0 && DecodeKey(c, rest) == Ok(key, after)
    ensures Resume(c, stack + [MapFrame([], size, key)], after)
         == match DecodeEntries(c, rest, size, |stack| + 1, None)
            case Err(e) => Err(e)
            case Ok(es, rest') => Feed(c, stack, Map(es), rest')
  {
    var s := stack + [MapFrame([], size, key)];
    assert Pop(s) == stack && OpenFrame(s[|stack|]) && OpenStack(s);
    FirstEntry(c, rest, size, |s|, key, after);
    hide DecodeValue, DecodeKey, DecodeEntries, OpenStack;
    var d := DecodeValue(c, after, |s|);
    if d.Ok? {
      var es := DecodeEntries(c, d.rest, size - 1, |s|, Some(key));
      assert Feed(c, s, d.value, d.rest) ==
        if es.Err? then Err(es.error) else Feed(c, stack, Map([] + [Entry(key, d.value)] + es.value), es.rest);
      assert [] + [Entry(key, d.value)] == [Entry(key, d.value)];
    }
  }

  lemma {:induction false} FirstEntry(c: Config, data: Bytes, size: nat, depth: nat, key: Bytes, after: Bytes)
    requires size > 0 && DecodeKey(c, data) == Ok(key, after)
    ensures DecodeEntries(c, data, size, depth, None) ==
            match DecodeValue(c, after, depth)
            case Err(e) => Err(e)
            case Ok(v, rest) =>
              match DecodeEntries(c, rest, size - 1, depth, Some(key))
              case Err(e) => Err(e)
              case Ok(es, rest') => Ok([Entry(key, v)] + es, rest')
  {
    hide DecodeValue, DecodeKey;
  }

  /** What is still to do once a header has been read inside `stack`. */
  ghost function ResumeBody(c: Config, stack: seq<Frame>, head: nat, rest: Bytes): Parsed<Value>
    requires OpenStack(stack)
  {
    match DecodeBody(c, head % 8, head % 256, head / 8, rest, |stack|)
    case Err(e) => Err(e)
    case Ok(v, rest') => Feed(c, stack, v, rest')
  }

  /** A container header in the input: refused, empty, or opening a frame. */
  lemma {:induction false} ContainerBody(c: Config, stack: seq<Frame>, head: nat, rest: Bytes)
    requires OpenStack(stack) && (head % 8 == TYPE_ARR || head % 8 == TYPE_MAP)
    ensures var size := head / 8;
            var isArray := head % 8 == TYPE_ARR;
            var h := ContainerHeader(c, size, if isArray then 1 else 2, rest, |stack|);
            ResumeBody(c, stack, head, rest) ==
              if h.Err? then Err(h.error)
              else if size == 0 then Feed(c, stack, if isArray then Array([]) else Map([]), rest)
              else if isArray then Resume(c, stack + [ArrayFrame([], size)], rest)
              else
                var k := DecodeKey(c, rest);
                if k.Err? then Err(k.error) else Resume(c, stack + [MapFrame([], size, k.value)], k.rest)
  {
    var size := head / 8;
    if size > 0 {
      if head % 8 == TYPE_ARR {
        OpenArray(c, stack, size, rest);
      } else if DecodeKey(c, rest).Ok? {
        OpenMap(c, stack, size, rest, DecodeKey(c, rest).value, DecodeKey(c, rest).rest);
      } else {
        assert DecodeEntries(c, rest, size, |stack| + 1, None) == Err(DecodeKey(c, rest).error);
      }
    } else {
      assert DecodeItems(c, rest, 0, |stack| + 1) == Ok([], rest);
      assert DecodeEntries(c, rest, 0, |stack| + 1, None) == Ok([], rest);
    }
  }

  /** The outcome of a parsing step: its value with the cursor on the unread input, or its error. */
  ghost predicate Yields<T>(r: Result<T, Error>, data: Bytes, spec: Parsed<T>) {
    match spec
    case Ok(v, rest) => r == Success(v) && data == rest
    case Err(e) => r == Failure(e)
  }

  class Parser {
    var data: Bytes

    constructor (input: Bytes)
      ensures data == input
    {
      data := input;
    }

    method FetchUleb() returns (r: Result<nat, Error>)
      modifies this
      ensures Yields(r, data, Uleb.Read(old(data), 0))
      ensures |data| <= |old(data)|
      ensures r.Success? ==> |data| < |old(data)|
    {
      var res: nat, off: nat := 0, 0;
      ShiftNothing(Uleb.Read(data, 0));
      hide Shifted, AddDigit;
      while true
        invariant Shifted(res, off, Uleb.Read(data, off)) == Uleb.Read(old(data), 0)
        invariant |data| <= |old(data)|
        decreases |data|
      {
        ShiftDigit(res, off, data);
        if data == [] { return Failure(UnterminatedUleb); }
        var byte := data[0];
        data := data[1..];
        res := AddDigit(res, byte % 128, off);
        if byte < 128 {
          if byte == 0 && off != 0 { return Failure(InvalidUlebEncoding); }
          return Success(res);
        }
        if off + 7 > U64_MAX { return Failure(NumberTooBig); }
        off := off + 7;
      }
    }

    method FetchSlice(expected: nat) returns (r: Result<Bytes, Error>)
      modifies this
      ensures Yields(r, data, CalldataDecoder.FetchSlice(old(data), expected))
      ensures |data| <= |old(data)|
    {
      if |data| < expected { return Failure(UnexpectedEnd(expected, |data|)); }
      r := Success(data[..expected]);
      data := data[expected..];
    }

    method FetchText(c: Config, size: nat) returns (r: Result<Bytes, Error>)
      modifies this
      ensures Yields(r, data, Text(c, size, old(data)))
      ensures |data| <= |old(data)|
    {
      if BitLength(size) > BITS_IN_SIZE { return Failure(ContainerSizeTooLarge(BitLength(size))); }
      r := FetchSlice(size);
      if r.Success? && !c.utf8(r.value) { r := Failure(InvalidUtf8); }
    }

    method FetchKey(c: Config) returns (r: Result<Bytes, Error>)
      modifies this
      ensures Yields(r, data, DecodeKey(c, old(data)))
      ensures |data| <= |old(data)|
    {
      var size := FetchUleb();
      match size
      case Failure(e) => r := Failure(e);
      case Success(n) => r := FetchText(c, n);
    }

    /** The header checks of a container, without the size's own conversion. */
    method CheckContainer(c: Config, size: nat, unit: nat, depth: nat) returns (r: Result<nat, Error>)
      requires c.early
      ensures Yields(r, data, ContainerHeader(c, size, unit, data, depth))
    {
      if depth >= c.maxDepth { return Failure(MaxDepthExceeded); }
      if BitLength(size) > BITS_IN_SIZE { return Failure(ContainerSizeTooLarge(BitLength(size))); }
      if |data| < unit * size { return Failure(UnexpectedEnd(unit * size, |data|)); }
      return Success(size);
    }

    /** A value that is not a container. */
    method FetchScalar(c: Config, tag: nat, low: Byte, val: nat, ghost depth: nat) returns (r: Result<Value, Error>)
      requires tag < 8 && tag != TYPE_ARR && tag != TYPE_MAP
      modifies this
      ensures Yields(r, data, DecodeBody(c, tag, low, val, old(data), depth))
      ensures |data| <= |old(data)|
    {
      if tag == TYPE_SPECIAL {
        if BitLength(val) > 5 { return Failure(InvalidSpecialValue(low)); }
        if low == SPECIAL_NULL { return Success(Null); }
        if low == SPECIAL_TRUE { return Success(Bool(true)); }
        if low == SPECIAL_FALSE { return Success(Bool(false)); }
        if low != SPECIAL_ADDR { return Failure(InvalidSpecialValue(low)); }
        var raw := FetchSlice(ADDRESS_SIZE);
        r := if raw.Success? then Success(Address(raw.value)) else Failure(raw.error);
      } else if tag == TYPE_BYTES {
        if BitLength(val) > BITS_IN_SIZE { return Failure(ContainerSizeTooLarge(BitLength(val))); }
        var s := FetchSlice(val);
        r := if s.Success? then Success(Blob(s.value)) else Failure(s.error);
      } else if tag == TYPE_STR {
        var s := FetchText(c, val);
        r := if s.Success? then Success(Str(s.value)) else Failure(s.error);
      } else if tag == TYPE_PINT {
        r := Success(Number(val));
      } else if tag == TYPE_NINT {
        r := Success(Number(-(val + 1)));
      } else {
        r := Failure(InvalidTag(tag));
      }
    }

    /** Hands a completed value to the innermost frame, closing every frame it fills. Either more
        input has to be read for the frame then on top, or the whole parse is over. */
    method Close(c: Config, stack: seq<Frame>, value: Value) returns (stack': seq<Frame>, done: Option<Result<Value, Error>>)
      requires OpenStack(stack)
      modifies this
      ensures OpenStack(stack') && |data| <= |old(data)|
      ensures match done
              case None => Resume(c, stack', data) == Feed(c, stack, value, old(data))
              case Some(r) => Yields(r, data, Feed(c, stack, value, old(data)))
    {
      hide DecodeItems, DecodeEntries, DecodeValue, DecodeKey, Insert;
      var completed := value;
      stack' := stack;
      while stack' != []
        invariant OpenStack(stack') && data == old(data)
        invariant Feed(c, stack', completed, data) == Feed(c, stack, value, data)
        decreases |stack'|
      {
        var frame := stack'[|stack'| - 1];
        var outer := stack'[..|stack'| - 1];
        assert stack' == outer + [frame];
        match frame {
        case ArrayFrame(items, remaining) =>
          if remaining > 1 {
            NextItem(c, outer, items, remaining, completed, data);
            return outer + [ArrayFrame(items + [completed], remaining - 1)], None;
          }
          LastElement(c, outer, frame, completed, data);
          completed := Array(items + [completed]);
        case MapFrame(entries, remaining, key) =>
          var collected := Insert(entries, Entry(key, completed));
          InsertLast(entries, Entry(key, completed));
          if remaining > 1 {
            NextEntry(c, outer, entries, remaining, key, completed, data);
            var newKey := FetchKey(c);
            if newKey.Failure? { return stack', Some(Failure(newKey.error)); }
            var last := collected[|collected| - 1].key;
            if !Less(last, newKey.value) { return stack', Some(Failure(InvalidMapOrdering(last, newKey.value))); }
            return outer + [MapFrame(collected, remaining - 1, newKey.value)], None;
          }
          LastElement(c, outer, frame, completed, data);
          completed := Map(collected);
        }
        stack' := outer;
      }
      done := Some(Success(completed));
    }

    /** Reads one header and what belongs to it: a completed value, or a frame opened on the stack. */
    method FetchHead(c: Config, stack: seq<Frame>) returns (stack': seq<Frame>, completed: Option<Result<Value, Error>>)
      requires c.early && OpenStack(stack)
      modifies this
      ensures OpenStack(stack') && |data| <= |old(data)|
      ensures match completed
              case None => Resume(c, stack', data) == Resume(c, stack, old(data)) && |data| < |old(data)|
              case Some(Failure(e)) => Resume(c, stack, old(data)) == Err(e)
              case Some(Success(v)) => Feed(c, stack', v, data) == Resume(c, stack, old(data)) && |data| < |old(data)|
    {
      stack' := stack;
      var head := FetchUleb();
      if head.Failure? { return stack, Some(Failure(head.error)); }
      var tag, val := head.value % 8, head.value / 8;
      assert Resume(c, stack, old(data)) == ResumeBody(c, stack, head.value, data);
      if tag == TYPE_ARR || tag == TYPE_MAP {
        ContainerBody(c, stack, head.value, data);
        var size := CheckContainer(c, val, if tag == TYPE_ARR then 1 else 2, |stack|);
        if size.Failure? { return stack, Some(Failure(size.error)); }
        if val == 0 { return stack, Some(Success(if tag == TYPE_ARR then Array([]) else Map([]))); }
        if tag == TYPE_ARR { return stack + [ArrayFrame([], val)], None; }
        var key := FetchKey(c);
        if key.Failure? { return stack, Some(Failure(key.error)); }
        return stack + [MapFrame([], val, key.value)], None;
      }
      var scalar := FetchScalar(c, tag, head.value % 256, val, |stack|);
      completed := Some(scalar);
    }

    /** The frame-stack loop reads exactly what the recursive descent reads, errors included. */
    method FetchVal(c: Config) returns (r: Result<Value, Error>)
      requires c.early
      modifies this
      ensures Yields(r, data, DecodeValue(c, old(data), 0))
    {
      var stack: seq<Frame> := [];
      ghost var goal := DecodeValue(c, data, 0);
      while true
        invariant OpenStack(stack)
        invariant Resume(c, stack, data) == goal
        decreases |data|
      {
        var completed;
        stack, completed := FetchHead(c, stack);
        if completed.Some? {
          if completed.value.Failure? { return completed.value; }
          var done;
          stack, done := Close(c, stack, completed.value.value);
          if done.Some? { return done.value; }
        }
      }
    }
  }

  /** `res += digit << off` */
  function AddDigit(res: nat, digit: nat, off: nat): nat {
    res + digit * Pow2(off)
  }

  /** A number read from offset `off` on, under the digits already in `res`. */
  ghost function Shifted(res: nat, off: nat, r: Parsed<nat>): Parsed<nat> {
    match r
    case Ok(n, rest) => Ok(res + Pow2(off) * n, rest)
    case Err(e) => Err(e)
  }

  lemma {:induction false} ShiftNothing(r: Parsed<nat>)
    ensures Shifted(0, 0, r) == r
  {
  }

  /** Reading on from an offset adds one digit and reads on from the next. */
  lemma {:induction false} ShiftDigit(res: nat, off: nat, data: Bytes)
    ensures Shifted(res, off, Uleb.Read(data, off)) ==
            if data == [] then Err(UnterminatedUleb)
            else if data[0] < 128 then
              if data[0] == 0 && off != 0 then Err(InvalidUlebEncoding)
              else Ok(AddDigit(res, data[0] % 128, off), data[1..])
            else if off + 7 > U64_MAX then Err(NumberTooBig)
            else Shifted(AddDigit(res, data[0] % 128, off), off + 7, Uleb.Read(data[1..], off + 7))
  {
    CalldataTheorems.Pow2Step(off);
    hide Pow2;
    if data != [] {
      if data[0] < 128 {
        assert data[0] % 128 == data[0];
        Distribute(Pow2(off), data[0], 0);
      } else if off + 7 <= U64_MAX && Uleb.Read(data[1..], off + 7).Ok? {
        assert data[0] % 128 == data[0] - 128;
        Distribute(Pow2(off), data[0] - 128, Uleb.Read(data[1..], off + 7).value);
      }
    }
  }

  lemma {:induction false} Distribute(p: nat, digit: nat, n: nat)
    ensures p * (digit + 128 * n) == digit * p + 128 * p * n
    ensures p * digit == digit * p
  {
    assert 128 * p * n == p * (128 * n);
  }

  method Decode(input: Bytes, utf8: Bytes -> bool) returns (r: Result<Value, Error>)
    ensures var spec := CalldataDecoder.Decode(Config(DEFAULT_MAX_DEPTH, utf8, true), input);
            r == if spec.Ok? then Success(spec.value) else Failure(spec.error)
    ensures forall v :: r == Success(v) <==>
              input == Encode(v) && CalldataFormat.Sound(utf8, v) && CalldataTheorems.Fits(v, 0, DEFAULT_MAX_DEPTH)
  {
    forall v
      ensures CalldataDecoder.Decode(Config(DEFAULT_MAX_DEPTH, utf8, true), input) == Ok(v, [])
         <==> input == Encode(v) && CalldataFormat.Sound(utf8, v) && CalldataTheorems.Fits(v, 0, DEFAULT_MAX_DEPTH)
    {
      CalldataFormat.AcceptedExactly(Config(DEFAULT_MAX_DEPTH, utf8, true), input, v);
    }
    CalldataFormat.RestEmpty(Config(DEFAULT_MAX_DEPTH, utf8, true), input);
    var parser := new Parser(input);
    r := parser.FetchVal(Config(DEFAULT_MAX_DEPTH, utf8, true));
    if r.Success? && parser.data != [] {
      r := Failure(UnexpectedEnd(0, |parser.data|));
    }
  }
}
