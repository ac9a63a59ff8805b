/** The snap-sync chunk messages: requests, responses, and the nested payload of a chunk in
    either of its two dialects. */
module Snap {
  import opened Bytes
  import opened Rlp
  import opened Wrappers

  datatype SnapEntry = SnapEntry(message: seq<Byte>, longValues: seq<seq<Byte>>)

  datatype ChunkPayload =
    | Proved(entries: seq<SnapEntry>, witnesses: seq<seq<Byte>>)
    | Legacy(blob: seq<Byte>)

  datatype Refusal = NoRefusal | UnknownBlock | StateRootMismatch | StateNotStored | PastTheEnd | OffsetNotOnGrid

  function Code(r: Refusal): (code: nat)
    ensures code <= 5 && FromCode(code) == r
  {
    match r
    case NoRefusal => 0
    case UnknownBlock => 1
    case StateRootMismatch => 2
    case StateNotStored => 3
    case PastTheEnd => 4
    case OffsetNotOnGrid => 5
  }

  function FromCode(code: nat): Refusal {
    if code == 1 then UnknownBlock
    else if code == 2 then StateRootMismatch
    else if code == 3 then StateNotStored
    else if code == 4 then PastTheEnd
    else if code == 5 then OffsetNotOnGrid
    else NoRefusal
  }

  // ── strings and lists inside a payload ─────────────────────────────────────

  function Strings(values: seq<seq<Byte>>): seq<Byte> {
    if values == [] then [] else EncodeString(values[0]) + Strings(values[1..])
  }

  /** Strings until the body is used up. */
  function DecodeStrings(body: seq<Byte>): Result<seq<seq<Byte>>, RlpError>
    decreases |body|
  {
    if body == [] then Ok([])
    else
      match DecodeBytes(body)
      case Failed(e) => Err(e)
      case Parsed(value, rest) => Before(value, DecodeStrings(rest))
  }

  function Before<T>(x: T, more: Result<seq<T>, RlpError>): Result<seq<T>, RlpError> {
    match more
    case Err(e) => Err(e)
    case Ok(xs) => Ok([x] + xs)
  }

  function Joined<T>(xs: seq<T>, more: Result<seq<T>, RlpError>): Result<seq<T>, RlpError> {
    match more
    case Err(e) => Err(e)
    case Ok(ys) => Ok(xs + ys)
  }

  lemma JoinedBefore<T>(xs: seq<T>, x: T, more: Result<seq<T>, RlpError>)
    ensures Joined(xs, Before(x, more)) == Joined(xs + [x], more)
  {
    if more.Ok? {
      assert xs + ([x] + more.value) == xs + [x] + more.value;
    }
  }

  lemma JoinedNothing<T>(more: Result<seq<T>, RlpError>)
    ensures Joined([], more) == more
  {
    if more.Ok? {
      assert [] + more.value == more.value;
    }
  }

  lemma StringsFrom(out: seq<Byte>, values: seq<seq<Byte>>, i: nat)
    requires i < |values|
    ensures out + Strings(values[i..]) == out + EncodeString(values[i]) + Strings(values[i + 1..])
  {
    assert values[i..][1..] == values[i + 1..];
  }

  method EncodeStrings(values: seq<seq<Byte>>) returns (out: seq<Byte>)
    ensures out == Strings(values)
  {
    out := [];
    for i := 0 to |values|
      invariant out + Strings(values[i..]) == Strings(values)
    {
      StringsFrom(out, values, i);
      out := out + EncodeString(values[i]);
    }
  }

  method ReadStrings(body: seq<Byte>) returns (r: Result<seq<seq<Byte>>, RlpError>)
    ensures r == DecodeStrings(body)
  {
    var values := [];
    var cursor := body;
    JoinedNothing(DecodeStrings(body));
    while cursor != []
      invariant DecodeStrings(body) == Joined(values, DecodeStrings(cursor))
      decreases |cursor|
    {
      var value := DecodeBytes(cursor);
      if value.Failed? {
        return Err(value.error);
      }
      JoinedBefore(values, value.value, DecodeStrings(value.rest));
      values := values + [value.value];
      cursor := value.rest;
    }
    assert values + [] == values;
    r := Ok(values);
  }

  /** A list's payload, whole. */
  function DecodeList(body: seq<Byte>, malformed: string): (p: Parse<seq<Byte>>)
    ensures p.Parsed? ==> |p.rest| < |body|
  {
    match DecodeHead(body)
    case Failed(e) => Failed(e)
    case Parsed(h, rest) =>
      if !h.list then Failed(Custom(malformed)) else Parsed(rest[..h.length], rest[h.length..])
  }

  lemma ListComesBack(payload: seq<Byte>, rest: seq<Byte>, malformed: string)
    requires |payload| < U64_LIMIT
    ensures DecodeList(EncodeList(payload) + rest, malformed) == Parsed(payload, rest)
  {
    ListReadsBack(payload, rest);
  }

  lemma {:induction false} StringsReadBack(values: seq<seq<Byte>>)
    requires |Strings(values)| < U64_LIMIT
    ensures DecodeStrings(Strings(values)) == Ok(values)
    decreases |values|
  {
    if values != [] {
      StringReadsBack(values[0], Strings(values[1..]));
      StringsReadBack(values[1..]);
      assert [values[0]] + values[1..] == values;
    }
  }

  // ── the payload of a chunk ─────────────────────────────────────────────────

  function EncodeEntry(e: SnapEntry): seq<Byte> {
    EncodeList(EncodeString(e.message) + EncodeList(Strings(e.longValues)))
  }

  function Entries(entries: seq<SnapEntry>): seq<Byte> {
    if entries == [] then [] else EncodeEntry(entries[0]) + Entries(entries[1..])
  }

  function EncodePayload(p: ChunkPayload): seq<Byte> {
    match p
    case Legacy(blob) => EncodeString(blob)
    case Proved(entries, witnesses) => EncodeList(EncodeList(Entries(entries)) + EncodeList(Strings(witnesses)))
  }

  method WriteEntries(entries: seq<SnapEntry>) returns (out: seq<Byte>)
    ensures out == Entries(entries)
  {
    out := [];
    for i := 0 to |entries|
      invariant out + Entries(entries[i..]) == Entries(entries)
    {
      assert entries[i..][1..] == entries[i + 1..];
      var values := EncodeStrings(entries[i].longValues);
      var e := EncodeList(EncodeString(entries[i].message) + EncodeList(values));
      assert e == EncodeEntry(entries[i]);
      assert out + (e + Entries(entries[i + 1..])) == out + e + Entries(entries[i + 1..]);
      out := out + e;
    }
  }

  /** Writes the entries and the witness one by one. */
  method WritePayload(p: ChunkPayload) returns (out: seq<Byte>)
    ensures out == EncodePayload(p)
  {
    match p
    case Legacy(blob) =>
      out := EncodeString(blob);
    case Proved(_, _) =>
      var entries := WriteEntries(p.entries);
      var strings := EncodeStrings(p.witnesses);
      out := EncodeList(EncodeList(entries) + EncodeList(strings));
  }

  function DecodeEntry(e: seq<Byte>): Result<SnapEntry, RlpError> {
    match DecodeBytes(e)
    case Failed(error) => Err(error)
    case Parsed(message, rest) =>
      match DecodeList(rest, "malformed long value list")
      case Failed(error) => Err(error)
      case Parsed(values, _) =>
        match DecodeStrings(values)
        case Err(error) => Err(error)
        case Ok(longValues) => Ok(SnapEntry(message, longValues))
  }

  function DecodeEntries(body: seq<Byte>): Result<seq<SnapEntry>, RlpError>
    decreases |body|
  {
    if body == [] then Ok([])
    else
      match DecodeList(body, "malformed chunk entry")
      case Failed(e) => Err(e)
      case Parsed(entry, rest) =>
        match DecodeEntry(entry)
        case Err(e) => Err(e)
        case Ok(e) => Before(e, DecodeEntries(rest))
  }

  function DecodeProved(body: seq<Byte>): Result<ChunkPayload, RlpError> {
    match DecodeList(body, "malformed chunk entries")
    case Failed(e) => Err(e)
    case Parsed(entriesBody, rest) =>
      match DecodeEntries(entriesBody)
      case Err(e) => Err(e)
      case Ok(entries) =>
        match DecodeList(rest, "malformed witness")
        case Failed(e) => Err(e)
        case Parsed(witnessBody, _) =>
          match DecodeStrings(witnessBody)
          case Err(e) => Err(e)
          case Ok(witnesses) => Ok(Proved(entries, witnesses))
  }

  /** The header alone says which dialect it is. */
  function DecodePayload(buf: seq<Byte>): (p: Parse<ChunkPayload>)
    ensures p.Parsed? ==> |p.rest| < |buf|
  {
    match DecodeHead(buf)
    case Failed(e) => Failed(e)
    case Parsed(h, rest) =>
      var body := rest[..h.length];
      if !h.list then Parsed(Legacy(body), rest[h.length..])
      else
        match DecodeProved(body)
        case Err(e) => Failed(e)
        case Ok(p) => Parsed(p, rest[h.length..])
  }

  method ReadEntries(body: seq<Byte>) returns (r: Result<seq<SnapEntry>, RlpError>)
    ensures r == DecodeEntries(body)
  {
    var entries := [];
    var cursor := body;
    JoinedNothing(DecodeEntries(body));
    while cursor != []
      invariant DecodeEntries(body) == Joined(entries, DecodeEntries(cursor))
      decreases |cursor|
    {
      var list := DecodeList(cursor, "malformed chunk entry");
      if list.Failed? {
        return Err(list.error);
      }
      var entry := ReadEntry(list.value);
      if entry.Err? {
        return Err(entry.error);
      }
      JoinedBefore(entries, entry.value, DecodeEntries(list.rest));
      entries := entries + [entry.value];
      cursor := list.rest;
    }
    assert entries + [] == entries;
    r := Ok(entries);
  }

  method ReadEntry(e: seq<Byte>) returns (r: Result<SnapEntry, RlpError>)
    ensures r == DecodeEntry(e)
  {
    var message := DecodeBytes(e);
    if message.Failed? {
      return Err(message.error);
    }
    var values := DecodeList(message.rest, "malformed long value list");
    if values.Failed? {
      return Err(values.error);
    }
    var longValues := ReadStrings(values.value);
    r := if longValues.Err? then Err(longValues.error) else Ok(SnapEntry(message.value, longValues.value));
  }

  method ReadProved(body: seq<Byte>) returns (r: Result<ChunkPayload, RlpError>)
    ensures r == DecodeProved(body)
  {
    var entriesBody := DecodeList(body, "malformed chunk entries");
    if entriesBody.Failed? {
      return Err(entriesBody.error);
    }
    var entries := ReadEntries(entriesBody.value);
    if entries.Err? {
      return Err(entries.error);
    }
    var witnessBody := DecodeList(entriesBody.rest, "malformed witness");
    if witnessBody.Failed? {
      return Err(witnessBody.error);
    }
    var witnesses := ReadStrings(witnessBody.value);
    r := if witnesses.Err? then Err(witnesses.error) else Ok(Proved(entries.value, witnesses.value));
  }

  lemma EntryReadsBack(e: SnapEntry)
    requires |EncodeEntry(e)| < U64_LIMIT
    ensures DecodeEntry(EncodeString(e.message) + EncodeList(Strings(e.longValues))) == Ok(e)
  {
    var values := EncodeList(Strings(e.longValues));
    StringReadsBack(e.message, values);
    ListComesBack(Strings(e.longValues), [], "malformed long value list");
    assert values + [] == values;
    StringsReadBack(e.longValues);
  }

  lemma FirstEntry(e: SnapEntry, more: seq<Byte>)
    requires |EncodeEntry(e)| < U64_LIMIT
    ensures DecodeEntries(EncodeEntry(e) + more) == Before(e, DecodeEntries(more))
  {
    ListComesBack(EncodeString(e.message) + EncodeList(Strings(e.longValues)), more, "malformed chunk entry");
    EntryReadsBack(e);
  }

  lemma {:induction false} EntriesReadBack(entries: seq<SnapEntry>)
    requires |Entries(entries)| < U64_LIMIT
    ensures DecodeEntries(Entries(entries)) == Ok(entries)
    decreases |entries|
  {
    if entries != [] {
      FirstEntry(entries[0], Entries(entries[1..]));
      EntriesReadBack(entries[1..]);
      assert [entries[0]] + entries[1..] == entries;
    }
  }

  lemma ProvedReadsBack(entries: seq<SnapEntry>, witnesses: seq<seq<Byte>>)
    requires |EncodePayload(Proved(entries, witnesses))| < U64_LIMIT
    ensures DecodeProved(EncodeList(Entries(entries)) + EncodeList(Strings(witnesses)))
            == Ok(Proved(entries, witnesses))
  {
    ListComesBack(Entries(entries), EncodeList(Strings(witnesses)), "malformed chunk entries");
    EntriesReadBack(entries);
    ListComesBack(Strings(witnesses), [], "malformed witness");
    assert EncodeList(Strings(witnesses)) + [] == EncodeList(Strings(witnesses));
    StringsReadBack(witnesses);
  }

  /** A chunk payload of any size and either dialect comes back as it was. */
  lemma PayloadReadsBack(p: ChunkPayload, rest: seq<Byte>)
    requires |EncodePayload(p)| < U64_LIMIT
    ensures DecodePayload(EncodePayload(p) + rest) == Parsed(p, rest)
  {
    match p
    case Legacy(blob) =>
      StringReadsBack(blob, rest);
    case Proved(entries, witnesses) =>
      ListReadsBack(EncodeList(Entries(entries)) + EncodeList(Strings(witnesses)), rest);
      ProvedReadsBack(entries, witnesses);
  }

  // ── the message id ─────────────────────────────────────────────────────────

  /** The id and the message's own fields, as a list. */
  function WithId(id: nat, params: seq<Byte>): seq<Byte>
    requires id < Span(8)
  {
    SpanGrows(8, 32);
    EncodeList(EncodeUint(id) + params)
  }

  /** The older framing: the fields' list wrapped in a string. */
  function WithIdWrapped(id: nat, params: seq<Byte>): seq<Byte>
    requires id < Span(8)
  {
    WithId(id, EncodeString(params))
  }

  function SplitId(buf: seq<Byte>): Parse<(nat, seq<Byte>)> {
    match DecodeHead(buf)
    case Failed(e) => Failed(e)
    case Parsed(h, after) =>
      if !h.list then Failed(Custom("malformed snap message"))
      else
        match DecodeLenient(after[..h.length], 8)
        case Failed(e) => Failed(e)
        case Parsed(id, rest) =>
          match DecodeHead(rest)
          case Failed(e) => Failed(e)
          case Parsed(params, peek) =>
            Parsed((id, if params.list then rest else peek[..params.length]), after[h.length..])
  }

  lemma UintSize(v: nat)
    requires v < Span(8)
    ensures v < Span(32) && 1 <= |EncodeUint(v)| <= 9
  {
    SpanGrows(8, 32);
    MinimalFits(v, 8);
  }

  lemma SplitOf(id: nat, params: seq<Byte>, rest: seq<Byte>)
    requires id < Span(8) && |params| + 9 < U64_LIMIT
    ensures SplitId(WithId(id, params) + rest)
         == match DecodeHead(params)
            case Failed(e) => Failed(e)
            case Parsed(h, peek) => Parsed((id, if h.list then params else peek[..h.length]), rest)
  {
    UintSize(id);
    ListReadsBack(EncodeUint(id) + params, rest);
    UintReadsBack(id, 8, params);
  }

  /** Both framings give the same id and the same fields. */
  lemma BothFramingsSplit(id: nat, fields: seq<Byte>, rest: seq<Byte>)
    requires id < Span(8) && |fields| + 64 < U64_LIMIT
    ensures SplitId(WithId(id, EncodeList(fields)) + rest) == Parsed((id, EncodeList(fields)), rest)
    ensures SplitId(WithIdWrapped(id, EncodeList(fields)) + rest) == Parsed((id, EncodeList(fields)), rest)
  {
    var params := EncodeList(fields);
    assert |params| <= |fields| + 9;
    SplitOf(id, params, rest);
    ListReadsBack(fields, []);
    assert params + [] == params;
    SplitOf(id, EncodeString(params), rest);
    WrappedHead(params);
  }

  lemma WrappedHead(params: seq<Byte>)
    requires 1 < |params| < U64_LIMIT || (|params| == 1 && params[0] >= 0x80)
    ensures DecodeHead(EncodeString(params)) == Parsed(Head(false, |params|), params) && params[..|params|] == params
  {
    HeadReadsBack(false, params, []);
    assert EncodeHead(false, |params|) + params + [] == EncodeString(params) && params + [] == params;
  }

  // ── requests and responses ─────────────────────────────────────────────────

  datatype ChunkRequest = ChunkRequest(id: nat, blockNumber: nat, from: nat, chunkSize: nat, stateRoot: Option<Hash32>)

  datatype ChunkResponse = ChunkResponse(
    id: nat, payload: ChunkPayload, blockNumber: nat, from: nat, to: nat, complete: bool, refusal: Refusal)

  predicate RequestInRange(q: ChunkRequest) {
    q.id < Span(8) && q.blockNumber < Span(8) && q.from < Span(8) && q.chunkSize < Span(8)
  }

  predicate ResponseInRange(r: ChunkResponse) {
    && r.id < Span(8) && r.blockNumber < Span(8) && r.from < Span(8) && r.to < Span(8)
    && |EncodePayload(r.payload)| + 128 < U64_LIMIT
  }

  function U64Bytes(v: nat): (b: seq<Byte>)
    requires v < Span(8)
    ensures 1 <= |b| <= 9
  {
    UintSize(v);
    EncodeUint(v)
  }

  /** rskj's three elements, and the root after them if it is known. */
  function RequestFields(q: ChunkRequest): seq<Byte>
    requires RequestInRange(q)
  {
    U64Bytes(q.blockNumber) + (U64Bytes(q.from) + (U64Bytes(q.chunkSize)
    + (if q.stateRoot.Some? then EncodeString(q.stateRoot.value) else [])))
  }

  function EncodeRequest(q: ChunkRequest): seq<Byte>
    requires RequestInRange(q)
  {
    WithId(q.id, EncodeList(RequestFields(q)))
  }

  lemma SmallCode(code: nat)
    requires code <= 5
    ensures code < Span(8)
  {
    SpanOf64();
  }

  /** rskj's five elements, and a refusal after them if there is one. */
  function ResponseFields(r: ChunkResponse): seq<Byte>
    requires ResponseInRange(r)
  {
    EncodePayload(r.payload) + ResponseTail(r)
  }

  function Flag(complete: bool): seq<Byte> {
    SmallCode(1);
    U64Bytes(if complete then 1 else 0)
  }

  function RefusalBytes(refusal: Refusal): seq<Byte> {
    SmallCode(Code(refusal));
    if refusal != NoRefusal then U64Bytes(Code(refusal)) else []
  }

  function ResponseTail(r: ChunkResponse): seq<Byte>
    requires ResponseInRange(r)
  {
    U64Bytes(r.blockNumber) + (U64Bytes(r.from) + (U64Bytes(r.to) + (Flag(r.complete) + RefusalBytes(r.refusal))))
  }

  function EncodeResponse(r: ChunkResponse): seq<Byte>
    requires ResponseInRange(r)
  {
    WithId(r.id, EncodeList(ResponseFields(r)))
  }

  /** The fields inside the parameters, which must be an item; a string is taken too. */
  function FieldsOf(params: seq<Byte>): Parse<seq<Byte>> {
    match DecodeHead(params)
    case Failed(e) => Failed(e)
    case Parsed(h, p) => Parsed(p[..h.length], [])
  }

  /** An integer that may be left off the end. */
  function OptionalU64(b: seq<Byte>): Parse<nat> {
    if b == [] then Parsed(0, []) else DecodeLenient(b, 8)
  }

  function OptionalRoot(b: seq<Byte>): Parse<Option<Hash32>> {
    if b == [] then Parsed(None, [])
    else
      var (root, rest) :- DecodeFixed(b, 32);
      Parsed(Some(root), rest)
  }

  function DecodeRequest(buf: seq<Byte>): Parse<ChunkRequest> {
    var (split, after) :- SplitId(buf);
    var (b, _) :- FieldsOf(split.1);
    var (blockNumber, b) :- DecodeLenient(b, 8);
    var (from, b) :- DecodeLenient(b, 8);
    var (chunkSize, b) :- OptionalU64(b);
    var (stateRoot, _) :- OptionalRoot(b);
    Parsed(ChunkRequest(split.0, blockNumber, from, chunkSize, stateRoot), after)
  }

  function DecodeTail(id: nat, payload: ChunkPayload, b: seq<Byte>): Parse<ChunkResponse> {
    var (blockNumber, b) :- DecodeLenient(b, 8);
    var (from, b) :- DecodeLenient(b, 8);
    var (to, b) :- DecodeLenient(b, 8);
    var (complete, b) :- OptionalU64(b);
    var (refusal, b) :- OptionalU64(b);
    Parsed(ChunkResponse(id, payload, blockNumber, from, to, complete != 0, FromCode(refusal)), b)
  }

  function DecodeResponse(buf: seq<Byte>): Parse<ChunkResponse> {
    var (split, after) :- SplitId(buf);
    var (b, _) :- FieldsOf(split.1);
    var (payload, b) :- DecodePayload(b);
    var (r, _) :- DecodeTail(split.0, payload, b);
    Parsed(r, after)
  }

  lemma U64ReadsBack(v: nat, rest: seq<Byte>)
    requires v < Span(8)
    ensures U64Bytes(v) + rest != [] && DecodeLenient(U64Bytes(v) + rest, 8) == Parsed(v, rest)
  {
    UintSize(v);
    UintReadsBack(v, 8, rest);
  }

  lemma FieldsComeBack(fields: seq<Byte>)
    requires |fields| < U64_LIMIT
    ensures FieldsOf(EncodeList(fields)) == Parsed(fields, [])
  {
    ListReadsBack(fields, []);
    assert EncodeList(fields) + [] == EncodeList(fields);
  }

  lemma RequestFieldsReadBack(q: ChunkRequest)
    requires RequestInRange(q)
    ensures |RequestFields(q)| <= 60
    ensures var root := if q.stateRoot.Some? then EncodeString(q.stateRoot.value) else [];
      && DecodeLenient(RequestFields(q), 8) == Parsed(q.blockNumber, U64Bytes(q.from) + (U64Bytes(q.chunkSize) + root))
      && DecodeLenient(U64Bytes(q.from) + (U64Bytes(q.chunkSize) + root), 8)
        == Parsed(q.from, U64Bytes(q.chunkSize) + root)
      && OptionalU64(U64Bytes(q.chunkSize) + root) == Parsed(q.chunkSize, root)
      && OptionalRoot(root) == Parsed(q.stateRoot, [])
  {
    var root := if q.stateRoot.Some? then EncodeString(q.stateRoot.value) else [];
    if q.stateRoot.Some? {
      ShortHead(false, 32);
      StringReadsBack(q.stateRoot.value, []);
      assert root + [] == root;
    }
    U64ReadsBack(q.chunkSize, root);
    U64ReadsBack(q.from, U64Bytes(q.chunkSize) + root);
    U64ReadsBack(q.blockNumber, U64Bytes(q.from) + (U64Bytes(q.chunkSize) + root));
  }

  /** Every chunk request comes back from either framing. */
  lemma RequestReadsBack(q: ChunkRequest, rest: seq<Byte>)
    requires RequestInRange(q)
    ensures DecodeRequest(EncodeRequest(q) + rest) == Parsed(q, rest)
    ensures DecodeRequest(WithIdWrapped(q.id, EncodeList(RequestFields(q))) + rest) == Parsed(q, rest)
  {
    RequestFieldsReadBack(q);
    BothFramingsSplit(q.id, RequestFields(q), rest);
    FieldsComeBack(RequestFields(q));
  }

  lemma FlagReadsBack(complete: bool, rest: seq<Byte>)
    ensures |Flag(complete)| <= 9
    ensures OptionalU64(Flag(complete) + rest) == Parsed(if complete then 1 else 0, rest)
  {
    SmallCode(1);
    U64ReadsBack(if complete then 1 else 0, rest);
  }

  lemma RefusalReadsBack(refusal: Refusal)
    ensures |RefusalBytes(refusal)| <= 9
    ensures OptionalU64(RefusalBytes(refusal)) == Parsed(Code(refusal), [])
  {
    var bytes := RefusalBytes(refusal);
    if refusal != NoRefusal {
      SmallCode(Code(refusal));
      U64ReadsBack(Code(refusal), []);
      assert bytes + [] == bytes;
    }
  }

  /** The fields of a response after its payload. */
  lemma TailReadsBack(r: ChunkResponse)
    requires ResponseInRange(r)
    ensures |ResponseTail(r)| <= 45
    ensures DecodeTail(r.id, r.payload, ResponseTail(r)) == Parsed(r, [])
  {
    var code := RefusalBytes(r.refusal);
    var flag := Flag(r.complete);
    RefusalReadsBack(r.refusal);
    FlagReadsBack(r.complete, code);
    U64ReadsBack(r.to, flag + code);
    U64ReadsBack(r.from, U64Bytes(r.to) + (flag + code));
    U64ReadsBack(r.blockNumber, U64Bytes(r.from) + (U64Bytes(r.to) + (flag + code)));
  }

  /** Every chunk response, with a payload of any size, comes back from either framing. */
  lemma ResponseReadsBack(r: ChunkResponse, rest: seq<Byte>)
    requires ResponseInRange(r)
    ensures DecodeResponse(EncodeResponse(r) + rest) == Parsed(r, rest)
    ensures DecodeResponse(WithIdWrapped(r.id, EncodeList(ResponseFields(r))) + rest) == Parsed(r, rest)
  {
    TailReadsBack(r);
    BothFramingsSplit(r.id, ResponseFields(r), rest);
    FieldsComeBack(ResponseFields(r));
    PayloadReadsBack(r.payload, ResponseTail(r));
  }
}
