/** The C interface over `McuBoot` (`c_api.rs`): status numbers for C,
    null-pointer handling, the response structs the caller passes in, and
    which calls leave allocations behind for the caller to free.

    Raw pointers are `Ptr` values over a `Heap`, an abstract map from the
    addresses of live allocations to what they hold. Memory the caller
    owns (the response structs, the input byte arrays) is not on this
    heap: a pointer to it is an `Option` of its contents. The behaviour the
    source leaves undefined (a freed or foreign pointer) is excluded by
    preconditions. */
module CApi {
  import opened Base
  import opened Errors
  import Status
  import Tags
  import Session

  /** A raw pointer into the heap of this interface. */
  datatype Ptr = Null | Addr(addr: nat)

  /** What an allocation of this interface holds: a boxed `McuBoot`, a
      boxed slice of words or bytes, a `CString`, or a box holding a
      `Box<[u32]>`, that is, the slice pointer to the words' own
      allocation at `slice`. */
  datatype Block =
    | Handle(boot: Session.McuBoot)
    | Words(words: seq<u32>)
    | ByteArray(bytes: Bytes)
    | Text(text: string)
    | BoxedSlice(slice: nat)

  /** What C may hand back as a `response_words` pointer. */
  predicate WordsPointer(b: Block) {
    b.Words? || b.BoxedSlice?
  }

  /** The live allocations, and an address never handed out yet. */
  datatype Heap = Heap(live: map<nat, Block>, next: nat)

  /** Every live address lies below the next fresh one. */
  predicate Valid(h: Heap) {
    forall a :: a in h.live ==> a < h.next
  }

  /** A new allocation, and the heap that holds it. */
  datatype Allocation = Allocation(ptr: Ptr, heap: Heap)

  /** `Box::into_raw` / `CString::into_raw`: a fresh address holding `b`. */
  function Allocate(h: Heap, b: Block): (r: Allocation)
    requires Valid(h)
    ensures r.ptr.Addr? && r.ptr.addr !in h.live
    ensures r.heap.live == h.live[r.ptr.addr := b] && Valid(r.heap)
  {
    Allocation(Addr(h.next), Heap(h.live[h.next := b], h.next + 1))
  }

  /** The pointer is NULL or a live allocation of the kind `kind` says. */
  predicate Owned(h: Heap, p: Ptr, kind: Block -> bool) {
    p.Null? || (p.addr in h.live && kind(h.live[p.addr]))
  }

  /** `free_box_data`: nothing for NULL, otherwise the allocation ends.
      Freeing anything else is undefined, hence the precondition. */
  function FreeBoxData(h: Heap, p: Ptr): (r: Heap)
    requires p.Null? || p.addr in h.live
    ensures p.Null? ==> r == h
    ensures p.Addr? ==> r.live.Keys == h.live.Keys - {p.addr} && r.next == h.next
    ensures forall a :: a in r.live ==> a in h.live && r.live[a] == h.live[a]
  {
    if p.Null? then h else Heap(h.live - {p.addr}, h.next)
  }

  /** Freeing what was just allocated gives back the allocations before
      it. */
  lemma FreeAllocated(h: Heap, b: Block)
    requires Valid(h)
    ensures FreeBoxData(Allocate(h, b).heap, Allocate(h, b).ptr).live == h.live
  {
    var r := Allocate(h, b);
    assert r.heap.live - {r.ptr.addr} == h.live;
  }

  /** A C `int` (`i32`). */
  type CStatus = x: int | -0x8000_0000 <= x < 0x8000_0000

  /** The negative numbers the interface returns for its own errors. */
  const ErrorNullPointerArg: CStatus := -1
  const ErrorInvalidPropertyTag: CStatus := -2
  const ErrorCommunicationError: CStatus := -3

  /** `status as i32` on a status whose discriminant is `n`: the same 32
      bits read as a signed number. */
  function AsI32(n: u32): (r: CStatus)
    ensures r % 0x1_0000_0000 == n
    ensures r >= 0 <==> n < 0x8000_0000
  {
    if n < 0x8000_0000 then n else n - 0x1_0000_0000
  }

  /** The signed reading of 32 bits determines them. */
  lemma AsI32Injective(m: u32, n: u32)
    ensures AsI32(m) == AsI32(n) ==> m == n
  {
  }

  /** `return_error`: the status as a C number, or -3 for any
      communication error. */
  function ReturnError(r: Result<Status.StatusCode, CommError>): (c: CStatus)
    ensures r.Ok? ==> c % 0x1_0000_0000 == Status.Code(r.value)
    ensures r.Err? ==> c == ErrorCommunicationError
  {
    match r
    case Ok(s) => AsI32(Status.Code(s))
    case Err(_) => ErrorCommunicationError
  }

  /** The text `mboot_get_status_text` returns for a number: a declared
      status gives its `Display` text. */
  function StatusText(status: CStatus): (t: string)
    ensures status >= 0 && Status.FromCode(status).Some? ==> t == Status.Text(Status.FromCode(status).value)
    ensures status >= 0 && Status.FromCode(status).None? ==> t == "invalid status code"
    ensures status == ErrorNullPointerArg ==> t == "passed NULL pointer in function argument"
    ensures status == ErrorInvalidPropertyTag ==> t == "invalid propery tag passed in arguments"
    ensures status == ErrorCommunicationError ==> t == "error while communicating with the device"
    ensures status < -3 ==> t == "unknown status code"
  {
    if status >= 0 then
      match Status.FromCode(status)
      case Some(s) => Status.Text(s)
      case None => "invalid status code"
    else if status == ErrorNullPointerArg then "passed NULL pointer in function argument"
    else if status == ErrorInvalidPropertyTag then "invalid propery tag passed in arguments"
    else if status == ErrorCommunicationError then "error while communicating with the device"
    else "unknown status code"
  }

  /** The text of what `return_error` returns is the status's own text,
      for every status below 2^31, and the communication error's text
      otherwise. */
  lemma StatusTextOfReturn(r: Result<Status.StatusCode, CommError>)
    requires r.Ok? ==> Status.Code(r.value) < 0x8000_0000
    ensures r.Ok? ==> StatusText(ReturnError(r)) == Status.Text(r.value)
    ensures r.Err? ==> StatusText(ReturnError(r)) == "error while communicating with the device"
  {
    if r.Ok? {
      Status.FromCodeOfCode(r.value);
    }
  }

  /** `UnknownStatusCode` (0xDEADBEEF) does not fit in a positive `i32`:
      the interface returns it as a negative number, which reads back as
      an unknown error rather than as the status. */
  lemma UnknownStatusReadsAsError()
    ensures ReturnError(Ok(Status.UnknownStatusCode)) == -0x2152_4111
    ensures StatusText(ReturnError(Ok(Status.UnknownStatusCode))) == "unknown status code"
  {
  }

  /** `mboot_get_status_text`: the text, allocated for the caller. */
  function GetStatusText(h: Heap, status: CStatus): (r: Allocation)
    requires Valid(h)
    ensures r.ptr.Addr? && r.ptr.addr !in h.live
    ensures r.heap.live == h.live[r.ptr.addr := Text(StatusText(status))] && Valid(r.heap)
  {
    Allocate(h, Text(StatusText(status)))
  }

  /** `mboot_free_status_text`: nothing for NULL. */
  function FreeStatusText(h: Heap, text: Ptr): (r: Heap)
    requires Owned(h, text, (b: Block) => b.Text?)
    ensures text.Null? ==> r == h
    ensures text.Addr? ==> r.live.Keys == h.live.Keys - {text.addr}
  {
    FreeBoxData(h, text)
  }

  /** A status text is freed without trace. */
  lemma StatusTextFreed(h: Heap, status: CStatus)
    requires Valid(h)
    ensures var r := GetStatusText(h, status); FreeStatusText(r.heap, r.ptr).live == h.live
  {
    FreeAllocated(h, Text(StatusText(status)));
  }

  /** The transports `mboot_create` can open. */
  datatype CProtocol = Uart | I2c

  /** `mboot_create`: `path` is the device path, `None` when it is not
      UTF-8; `open` stands for `UARTProtocol::open` / `I2CProtocol::open`.
      Any failure gives NULL and allocates nothing; otherwise a new session
      with the data-phase mask clear. */
  function Create(h: Heap, path: Option<string>, protocol: CProtocol,
                  open: (CProtocol, string) -> Option<Session.Device>): (r: Allocation)
    requires Valid(h)
    ensures Valid(r.heap)
    ensures r.ptr.Null? <==> path.None? || open(protocol, path.value).None?
    ensures r.ptr.Null? ==> r.heap == h
    ensures r.ptr.Addr? ==>
      && r.ptr.addr !in h.live
      && r.heap.live == h.live[r.ptr.addr := Handle(Session.McuBoot(open(protocol, path.value).value, false))]
  {
    match path
    case None => Allocation(Null, h)
    case Some(p) =>
      match open(protocol, p)
      case None => Allocation(Null, h)
      case Some(device) => Allocate(h, Handle(Session.McuBoot(device, false)))
  }

  /** `mboot_destroy`: nothing for NULL, otherwise the session is freed. */
  function Destroy(h: Heap, mboot: Ptr): (r: Heap)
    requires Owned(h, mboot, (b: Block) => b.Handle?)
    ensures mboot.Null? ==> r == h
    ensures mboot.Addr? ==> r.live.Keys == h.live.Keys - {mboot.addr}
  {
    FreeBoxData(h, mboot)
  }

  /** A session created and destroyed leaves the heap as it was. */
  lemma CreateDestroy(h: Heap, path: Option<string>, protocol: CProtocol,
                      open: (CProtocol, string) -> Option<Session.Device>)
    requires Valid(h)
    ensures var r := Create(h, path, protocol, open); Destroy(r.heap, r.ptr).live == h.live
  {
    var r := Create(h, path, protocol, open);
    if r.ptr.Addr? {
      FreeAllocated(h, Handle(Session.McuBoot(open(protocol, path.value).value, false)));
    }
  }

  /** How an entry point ends: it returns a number, what it wrote into the
      caller's struct, and the heap; or a panic inside the session, which
      cannot unwind through `extern "C"` and aborts the process. */
  datatype Call<+R> = Returned(ret: int, out: R, heap: Heap) | ProcessAborted

  /** The pointer is a live session. */
  predicate LiveSession(h: Heap, mboot: Ptr) {
    Owned(h, mboot, (b: Block) => b.Handle?)
  }

  /** The session after a call, stored back behind its pointer. */
  function Store(h: Heap, mboot: Ptr, boot: Session.McuBoot): (r: Heap)
    requires mboot.Addr?
    ensures r.live.Keys == h.live.Keys + {mboot.addr} && r.next == h.next
  {
    Heap(h.live[mboot.addr := Handle(boot)], h.next)
  }

  /** How an entry point's number reports the outcome `s` of its session
      call on the session behind `mboot`: a panic aborts the process;
      otherwise the session is stored back, the number is -3 exactly for a
      communication error, and on success it carries the status's
      discriminant in its 32 bits. */
  predicate ReportsStatus(c: Call<()>, h: Heap, mboot: Ptr, s: Session.Io<Status.StatusCode>)
    requires mboot.Addr?
  {
    && (c.ProcessAborted? <==> s.result == Err(Session.Panic))
    && (c.Returned? ==> -0x8000_0000 <= c.ret < 0x8000_0000)
    && (c.Returned? ==> c.heap == Store(h, mboot, s.boot) && (c.ret == ErrorCommunicationError <==> s.result.Err?))
    && (s.result.Ok? ==> c.ret % 0x1_0000_0000 == Status.Code(s.result.value))
  }

  /** An entry point that returns `return_error` of a session call; `call`
      is that call on the stored session. No status reads as one of the
      interface's own errors. */
  function StatusCall(h: Heap, mboot: Ptr, call: Session.McuBoot -> Session.Io<Status.StatusCode>): (c: Call<()>)
    requires mboot.Addr? && LiveSession(h, mboot)
    ensures ReportsStatus(c, h, mboot, call(h.live[mboot.addr].boot))
    ensures c.Returned? ==> c.ret != ErrorNullPointerArg && c.ret != ErrorInvalidPropertyTag
    ensures c.Returned? ==> c.heap.live.Keys == h.live.Keys
  {
    var s := call(h.live[mboot.addr].boot);
    match s.result
    case Ok(status) =>
      Status.CodeAtMost(status);
      Returned(ReturnError(Ok(status)), (), Store(h, mboot, s.boot))
    case Err(Error(e)) => Returned(ReturnError(Err(e)), (), Store(h, mboot, s.boot))
    case Err(Panic) => ProcessAborted
  }

  /** `mboot_write_memory`: `bytes` is the caller's array (`None` for
      NULL); `write` stands for `McuBoot::write_memory`. */
  function WriteMemory(h: Heap, mboot: Ptr, startAddress: u32, memoryId: u32, bytes: Option<Bytes>,
                       write: (Session.McuBoot, u32, u32, Bytes) -> Session.Io<Status.StatusCode>): (c: Call<()>)
    requires LiveSession(h, mboot)
    ensures c.Returned? && c.ret == ErrorNullPointerArg <==> mboot.Null? || bytes.None?
    ensures mboot.Null? || bytes.None? ==> c.heap == h
    ensures mboot.Addr? && bytes.Some? ==>
      ReportsStatus(c, h, mboot, write(h.live[mboot.addr].boot, startAddress, memoryId, bytes.value))
    ensures c.Returned? ==> c.heap.live.Keys == h.live.Keys
  {
    if mboot.Null? || bytes.None? then Returned(ErrorNullPointerArg, (), h)
    else StatusCall(h, mboot, (b: Session.McuBoot) => write(b, startAddress, memoryId, bytes.value))
  }

  /** `mboot_flash_erase_all`; `erase` stands for
      `McuBoot::flash_erase_all`. */
  function FlashEraseAll(h: Heap, mboot: Ptr, memoryId: u32,
                         erase: (Session.McuBoot, u32) -> Session.Io<Status.StatusCode>): (c: Call<()>)
    requires LiveSession(h, mboot)
    ensures c.Returned? && c.ret == ErrorNullPointerArg <==> mboot.Null?
    ensures mboot.Null? ==> c.heap == h
    ensures mboot.Addr? ==> ReportsStatus(c, h, mboot, erase(h.live[mboot.addr].boot, memoryId))
    ensures c.Returned? ==> c.heap.live.Keys == h.live.Keys
  {
    if mboot.Null? then Returned(ErrorNullPointerArg, (), h)
    else StatusCall(h, mboot, (b: Session.McuBoot) => erase(b, memoryId))
  }

  /** `mboot_receive_sb_file`; `receive` stands for
      `McuBoot::receive_sb_file`. */
  function ReceiveSbFile(h: Heap, mboot: Ptr, bytes: Option<Bytes>,
                         receive: (Session.McuBoot, Bytes) -> Session.Io<Status.StatusCode>): (c: Call<()>)
    requires LiveSession(h, mboot)
    ensures c.Returned? && c.ret == ErrorNullPointerArg <==> mboot.Null? || bytes.None?
    ensures mboot.Null? || bytes.None? ==> c.heap == h
    ensures mboot.Addr? && bytes.Some? ==>
      ReportsStatus(c, h, mboot, receive(h.live[mboot.addr].boot, bytes.value))
    ensures c.Returned? ==> c.heap.live.Keys == h.live.Keys
  {
    if mboot.Null? || bytes.None? then Returned(ErrorNullPointerArg, (), h)
    else StatusCall(h, mboot, (b: Session.McuBoot) => receive(b, bytes.value))
  }

  /** `mboot_flash_program_once`; `program` stands for
      `McuBoot::flash_program_once` (`Session.FlashProgramOnce`). */
  function FlashProgramOnce(h: Heap, mboot: Ptr, index: u32, count: u32, data: u32, verify: bool,
                            program: (Session.McuBoot, u32, u32, u32, bool) -> Session.Io<Status.StatusCode>)
    : (c: Call<()>)
    requires LiveSession(h, mboot)
    ensures c.Returned? && c.ret == ErrorNullPointerArg <==> mboot.Null?
    ensures mboot.Null? ==> c.heap == h
    ensures mboot.Addr? ==>
      ReportsStatus(c, h, mboot, program(h.live[mboot.addr].boot, index, count, data, verify))
    ensures c.Returned? ==> c.heap.live.Keys == h.live.Keys
  {
    if mboot.Null? then Returned(ErrorNullPointerArg, (), h)
    else StatusCall(h, mboot, (b: Session.McuBoot) => program(b, index, count, data, verify))
  }

  /** What `mboot_get_status_text` says about the number an entry point
      reported: the status's own text for a status below 2^31, and the
      communication error's text for a communication error. */
  lemma ReportedStatusText(c: Call<()>, h: Heap, mboot: Ptr, s: Session.Io<Status.StatusCode>)
    requires mboot.Addr? && ReportsStatus(c, h, mboot, s) && c.Returned?
    ensures s.result.Ok? && Status.Code(s.result.value) < 0x8000_0000 ==>
      StatusText(c.ret) == Status.Text(s.result.value)
    ensures s.result.Err? ==> StatusText(c.ret) == "error while communicating with the device"
  {
    if s.result.Ok? && Status.Code(s.result.value) < 0x8000_0000 {
      var n := Status.Code(s.result.value);
      if c.ret < 0 {
        Base.DivUnique(c.ret, 0x1_0000_0000, -1, c.ret + 0x1_0000_0000);
        assert false;
      }
      Base.DivUnique(c.ret, 0x1_0000_0000, 0, c.ret);
      assert c.ret == n;
      Status.FromCodeOfCode(s.result.value);
    }
  }

  /** `mboot_flash_read_once`: an `i64`, the word read (never negative)
      or a negative error; `readOnce` stands for `McuBoot::flash_read_once`
      (`Session.FlashReadOnce`). */
  function FlashReadOnce(h: Heap, mboot: Ptr, index: u32, count: u32,
                         readOnce: (Session.McuBoot, u32, u32) -> Session.Io<u32>): (c: Call<()>)
    requires LiveSession(h, mboot)
    ensures mboot.Null? ==> c == Returned(ErrorNullPointerArg, (), h)
    ensures mboot.Addr? ==>
      var s := readOnce(h.live[mboot.addr].boot, index, count);
      && (c.ProcessAborted? <==> s.result == Err(Session.Panic))
      && (c.Returned? ==> c.heap == Store(h, mboot, s.boot) && (c.ret >= 0 <==> s.result.Ok?))
      && (s.result.Ok? ==> c.ret == s.result.value)
      && (s.result.Err? && s.result.error.Error? ==> c.ret == ErrorCommunicationError)
  {
    if mboot.Null? then Returned(ErrorNullPointerArg, (), h)
    else
      var s := readOnce(h.live[mboot.addr].boot, index, count);
      match s.result
      case Ok(word) => Returned(word, (), Store(h, mboot, s.boot))
      case Err(Error(_)) => Returned(ErrorCommunicationError, (), Store(h, mboot, s.boot))
      case Err(Panic) => ProcessAborted
  }

  /** `CGetPropertyResponse`. */
  datatype CGetPropertyResponse = CGetPropertyResponse(
    status: CStatus, responseWords: Ptr, responseWordsLen: nat, propertyType: u8)

  /** `CGetPropertyResponse::default()`: zeros and NULL. */
  const EmptyGetProperty := CGetPropertyResponse(0, Null, 0, 0)

  /** The elements of an array handed to C: a lone `zero` when there are
      none, so that C never receives an empty array. */
  function NonEmpty<T>(s: seq<T>, zero: T): (r: seq<T>)
    ensures |r| >= 1
    ensures |s| > 0 ==> r == s
    ensures |s| == 0 ==> r == [zero]
  {
    if |s| == 0 then [zero] else s
  }

  /** `mboot_get_property`: `response` is the caller's struct, `None` for
      NULL. After the null checks the struct is reset; an unknown tag
      stops there, without touching the device. On success the struct
      gets the status, a fresh array of the response words and the tag;
      on failure it stays reset and nothing is allocated. `query` stands
      for `McuBoot::get_property` (`Session.GetProperty`). */
  function GetProperty(h: Heap, mboot: Ptr, tag: u8, memoryIndex: u32, response: Option<CGetPropertyResponse>,
                       query: (Session.McuBoot, Tags.PropertyKind, u32) -> Session.Io<Session.GetPropertyResponse>)
    : (c: Call<Option<CGetPropertyResponse>>)
    requires Valid(h) && LiveSession(h, mboot)
    ensures mboot.Null? || response.None? ==> c == Returned(ErrorNullPointerArg, response, h)
    ensures mboot.Addr? && response.Some? && Tags.PropertyFromCode(tag).None? ==>
      c == Returned(ErrorInvalidPropertyTag, Some(EmptyGetProperty), h)
    ensures mboot.Addr? && response.Some? && Tags.PropertyFromCode(tag).Some? ==>
      var s := query(h.live[mboot.addr].boot, Tags.PropertyFromCode(tag).value, memoryIndex);
      var after := Store(h, mboot, s.boot);
      && (c.ProcessAborted? <==> s.result == Err(Session.Panic))
      && (s.result.Err? && s.result.error.Error? ==>
            c == Returned(ErrorCommunicationError, Some(EmptyGetProperty), after))
      && (s.result.Ok? ==>
            && c.Returned? && c.out.Some?
            && var out := c.out.value;
            && c.ret == out.status == AsI32(Status.Code(s.result.value.status))
            && out.propertyType == tag
            && out.responseWords.Addr? && out.responseWords.addr !in after.live
            && c.heap.live == after.live[out.responseWords.addr := Words(NonEmpty(s.result.value.responseWords, 0))]
            && out.responseWordsLen == |NonEmpty(s.result.value.responseWords, 0)|)
    ensures c.Returned? ==> Valid(c.heap)
  {
    if mboot.Null? || response.None? then Returned(ErrorNullPointerArg, response, h)
    else
      match Tags.PropertyFromCode(tag)
      case None => Returned(ErrorInvalidPropertyTag, Some(EmptyGetProperty), h)
      case Some(kind) =>
        var s := query(h.live[mboot.addr].boot, kind, memoryIndex);
        var after := Store(h, mboot, s.boot);
        match s.result
        case Err(Panic) => ProcessAborted
        case Err(Error(_)) => Returned(ErrorCommunicationError, Some(EmptyGetProperty), after)
        case Ok(res) =>
          var words := NonEmpty(res.responseWords, 0);
          var a := Allocate(after, Words(words));
          var status := AsI32(Status.Code(res.status));
          Returned(status, Some(CGetPropertyResponse(status, a.ptr, |words|, tag)), a.heap)
  }

  /** `mboot_free_response_words`: nothing for NULL. Only the allocation
      at the given address ends, so for a box around a slice the slice's
      own allocation stays. */
  function FreeResponseWords(h: Heap, words: Ptr): (r: Heap)
    requires Owned(h, words, WordsPointer)
    ensures words.Null? ==> r == h
    ensures words.Addr? ==> r.live.Keys == h.live.Keys - {words.addr}
  {
    FreeBoxData(h, words)
  }

  /** `CReadMemoryResponse`. */
  datatype CReadMemoryResponse = CReadMemoryResponse(
    status: CStatus, responseWords: Ptr, responseWordsLen: nat, bytes: Ptr, bytesLen: nat)

  /** `CReadMemoryResponse::default()`. */
  const EmptyReadMemory := CReadMemoryResponse(0, Null, 0, Null, 0)

  /** `mboot_read_memory`: like `mboot_get_property`, with fresh arrays on
      success. `Box::new(res.response_words)` boxes the words' slice once
      more, so C is handed the address of that box, which holds the slice
      pointer, not the words; the words stay in their own allocation, and
      `response_words_len` is still the number of words. The bytes read
      are handed over as they are, a lone zero byte standing for an empty
      read. `read` stands for `McuBoot::read_memory` (`Session.ReadMemory`). */
  function ReadMemory(h: Heap, mboot: Ptr, startAddress: u32, byteCount: u32, memoryId: u32,
                      response: Option<CReadMemoryResponse>,
                      read: (Session.McuBoot, u32, u32, u32) -> Session.Io<Session.ReadMemoryResponse>)
    : (c: Call<Option<CReadMemoryResponse>>)
    requires Valid(h) && LiveSession(h, mboot)
    ensures mboot.Null? || response.None? ==> c == Returned(ErrorNullPointerArg, response, h)
    ensures mboot.Addr? && response.Some? ==>
      var s := read(h.live[mboot.addr].boot, startAddress, byteCount, memoryId);
      var after := Store(h, mboot, s.boot);
      && (c.ProcessAborted? <==> s.result == Err(Session.Panic))
      && (s.result.Err? && s.result.error.Error? ==>
            c == Returned(ErrorCommunicationError, Some(EmptyReadMemory), after))
      && (s.result.Ok? ==>
            && c.Returned? && c.out.Some?
            && var out := c.out.value;
            && c.ret == out.status == AsI32(Status.Code(s.result.value.status))
            && out.responseWords.Addr? && out.bytes.Addr?
            && out.responseWords.addr in c.heap.live && c.heap.live[out.responseWords.addr].BoxedSlice?
            && var slice := c.heap.live[out.responseWords.addr].slice;
            && slice !in after.live && out.responseWords.addr !in after.live && out.bytes.addr !in after.live
            && slice != out.responseWords.addr && slice != out.bytes.addr
            && out.responseWords.addr != out.bytes.addr
            && c.heap.live == after.live[slice := Words(s.result.value.responseWords)]
                                        [out.responseWords.addr := BoxedSlice(slice)]
                                        [out.bytes.addr := ByteArray(NonEmpty(s.result.value.bytes, 0))]
            && out.responseWordsLen == |s.result.value.responseWords|
            && out.bytesLen == |NonEmpty(s.result.value.bytes, 0)|)
    ensures c.Returned? ==> Valid(c.heap)
  {
    if mboot.Null? || response.None? then Returned(ErrorNullPointerArg, response, h)
    else
      var s := read(h.live[mboot.addr].boot, startAddress, byteCount, memoryId);
      var after := Store(h, mboot, s.boot);
      match s.result
      case Err(Panic) => ProcessAborted
      case Err(Error(_)) => Returned(ErrorCommunicationError, Some(EmptyReadMemory), after)
      case Ok(res) =>
        var slice := Allocate(after, Words(res.responseWords));
        var w := Allocate(slice.heap, BoxedSlice(slice.ptr.addr));
        var bytes := NonEmpty(res.bytes, 0);
        var b := Allocate(w.heap, ByteArray(bytes));
        var status := AsI32(Status.Code(res.status));
        Returned(status, Some(CReadMemoryResponse(status, w.ptr, |res.responseWords|, b.ptr, |bytes|)), b.heap)
  }

  /** `mboot_read_memory` as evidently intended, handing the words over
      the way `mboot_get_property` does (`Box::into_raw(res.response_words)`):
      C gets the address of the words themselves. */
  function ReadMemoryCorrected(h: Heap, mboot: Ptr, startAddress: u32, byteCount: u32, memoryId: u32,
                               response: Option<CReadMemoryResponse>,
                               read: (Session.McuBoot, u32, u32, u32) -> Session.Io<Session.ReadMemoryResponse>)
    : (c: Call<Option<CReadMemoryResponse>>)
    requires Valid(h) && LiveSession(h, mboot)
    ensures mboot.Null? || response.None? ==> c == Returned(ErrorNullPointerArg, response, h)
    ensures mboot.Addr? && response.Some? ==>
      var s := read(h.live[mboot.addr].boot, startAddress, byteCount, memoryId);
      var after := Store(h, mboot, s.boot);
      && (c.ProcessAborted? <==> s.result == Err(Session.Panic))
      && (s.result.Err? && s.result.error.Error? ==>
            c == Returned(ErrorCommunicationError, Some(EmptyReadMemory), after))
      && (s.result.Ok? ==>
            && c.Returned? && c.out.Some?
            && var out := c.out.value;
            && c.ret == out.status == AsI32(Status.Code(s.result.value.status))
            && out.responseWords.Addr? && out.bytes.Addr?
            && out.responseWords.addr !in after.live && out.bytes.addr !in after.live
            && out.responseWords.addr != out.bytes.addr
            && c.heap.live == after.live[out.responseWords.addr := Words(s.result.value.responseWords)]
                                        [out.bytes.addr := ByteArray(NonEmpty(s.result.value.bytes, 0))]
            && out.responseWordsLen == |s.result.value.responseWords|
            && out.bytesLen == |NonEmpty(s.result.value.bytes, 0)|)
    ensures c.Returned? ==> Valid(c.heap)
  {
    if mboot.Null? || response.None? then Returned(ErrorNullPointerArg, response, h)
    else
      var s := read(h.live[mboot.addr].boot, startAddress, byteCount, memoryId);
      var after := Store(h, mboot, s.boot);
      match s.result
      case Err(Panic) => ProcessAborted
      case Err(Error(_)) => Returned(ErrorCommunicationError, Some(EmptyReadMemory), after)
      case Ok(res) =>
        var w := Allocate(after, Words(res.responseWords));
        var bytes := NonEmpty(res.bytes, 0);
        var b := Allocate(w.heap, ByteArray(bytes));
        var status := AsI32(Status.Code(res.status));
        Returned(status, Some(CReadMemoryResponse(status, w.ptr, |res.responseWords|, b.ptr, |bytes|)), b.heap)
  }

  /** `mboot_free_bytes`: nothing for NULL. */
  function FreeBytes(h: Heap, bytes: Ptr): (r: Heap)
    requires Owned(h, bytes, (b: Block) => b.ByteArray?)
    ensures bytes.Null? ==> r == h
    ensures bytes.Addr? ==> r.live.Keys == h.live.Keys - {bytes.addr}
  {
    FreeBoxData(h, bytes)
  }

  /** `mboot_free_read_memory_response`: both arrays of a response the
      caller still holds (reading through a NULL struct pointer is
      undefined, so there is always one). */
  function FreeReadMemoryResponse(h: Heap, response: CReadMemoryResponse): (r: Heap)
    requires Owned(h, response.responseWords, WordsPointer)
    requires Owned(h, response.bytes, (b: Block) => b.ByteArray?)
    ensures r.live.Keys == h.live.Keys - (if response.responseWords.Addr? then {response.responseWords.addr} else {})
                                       - (if response.bytes.Addr? then {response.bytes.addr} else {})
  {
    var h1 := FreeBoxData(h, response.responseWords);
    assert response.bytes.Addr? ==> response.bytes.addr in h1.live;
    FreeBoxData(h1, response.bytes)
  }

  /** What a successful `mboot_get_property` allocates is exactly what
      freeing its words gives back: the heap ends as the call left it
      apart from the array. */
  lemma GetPropertyWordsFreed(h: Heap, mboot: Ptr, tag: u8, memoryIndex: u32, response: CGetPropertyResponse,
                              query: (Session.McuBoot, Tags.PropertyKind, u32) -> Session.Io<Session.GetPropertyResponse>)
    requires Valid(h) && LiveSession(h, mboot) && mboot.Addr?
    requires GetProperty(h, mboot, tag, memoryIndex, Some(response), query).Returned?
    ensures var c := GetProperty(h, mboot, tag, memoryIndex, Some(response), query);
      && c.out.Some?
      && Owned(c.heap, c.out.value.responseWords, (b: Block) => b.Words?)
      && FreeResponseWords(c.heap, c.out.value.responseWords).live.Keys == h.live.Keys
  {
  }

  /** `mboot_get_property` allocates exactly when it hands the caller an
      array: a call that ends in an error leaves the struct reset and no
      new address live. */
  lemma GetPropertyAllocatesOnlyArray(h: Heap, mboot: Ptr, tag: u8, memoryIndex: u32,
                                      response: CGetPropertyResponse,
                                      query: (Session.McuBoot, Tags.PropertyKind, u32) -> Session.Io<Session.GetPropertyResponse>)
    requires Valid(h) && LiveSession(h, mboot) && mboot.Addr?
    ensures var c := GetProperty(h, mboot, tag, memoryIndex, Some(response), query);
      c.Returned? ==>
        && c.out.Some?
        && (c.heap.live.Keys == h.live.Keys <==> c.out.value.responseWords.Null?)
        && (c.out.value.responseWords.Null? <==> c.out == Some(EmptyGetProperty))
  {
  }

  /** `mboot_read_memory` allocates exactly when it hands the caller its
      arrays. */
  lemma ReadMemoryAllocatesOnlyArrays(h: Heap, mboot: Ptr, startAddress: u32, byteCount: u32, memoryId: u32,
                                      response: CReadMemoryResponse,
                                      read: (Session.McuBoot, u32, u32, u32) -> Session.Io<Session.ReadMemoryResponse>)
    requires Valid(h) && LiveSession(h, mboot) && mboot.Addr?
    ensures var c := ReadMemory(h, mboot, startAddress, byteCount, memoryId, Some(response), read);
      c.Returned? ==>
        && c.out.Some?
        && (c.heap.live.Keys == h.live.Keys <==> c.out.value.bytes.Null?)
        && (c.out.value.bytes.Null? <==> c.out == Some(EmptyReadMemory))
  {
  }

  /** Freeing both arrays of a successful `mboot_read_memory` ends the box
      C was handed and the bytes, but not the words' own allocation: it
      stays live, holding the response words, at an address the caller
      was never handed. */
  lemma ReadMemoryResponseLeaks(h: Heap, mboot: Ptr, startAddress: u32, byteCount: u32, memoryId: u32,
                                response: CReadMemoryResponse,
                                read: (Session.McuBoot, u32, u32, u32) -> Session.Io<Session.ReadMemoryResponse>)
    requires Valid(h) && LiveSession(h, mboot) && mboot.Addr?
    requires read(h.live[mboot.addr].boot, startAddress, byteCount, memoryId).result.Ok?
    ensures var c := ReadMemory(h, mboot, startAddress, byteCount, memoryId, Some(response), read);
      var words := read(h.live[mboot.addr].boot, startAddress, byteCount, memoryId).result.value.responseWords;
      && c.Returned? && c.out.Some?
      && Owned(c.heap, c.out.value.responseWords, WordsPointer)
      && Owned(c.heap, c.out.value.bytes, (b: Block) => b.ByteArray?)
      && var freed := FreeReadMemoryResponse(c.heap, c.out.value);
      && exists slice :: slice !in h.live && slice != c.out.value.responseWords.addr && slice != c.out.value.bytes.addr
           && freed.live.Keys == h.live.Keys + {slice} && freed.live[slice] == Words(words)
  {
    var c := ReadMemory(h, mboot, startAddress, byteCount, memoryId, Some(response), read);
    var out := c.out.value;
    var slice := c.heap.live[out.responseWords.addr].slice;
    var freed := FreeReadMemoryResponse(c.heap, out);
    assert freed.live.Keys == h.live.Keys + {slice};
    assert slice in freed.live;
  }

  /** With the words handed over once, freeing both arrays gives back the
      heap's addresses as they were before the call. */
  lemma ReadMemoryCorrectedFreed(h: Heap, mboot: Ptr, startAddress: u32, byteCount: u32, memoryId: u32,
                                 response: CReadMemoryResponse,
                                 read: (Session.McuBoot, u32, u32, u32) -> Session.Io<Session.ReadMemoryResponse>)
    requires Valid(h) && LiveSession(h, mboot) && mboot.Addr?
    requires ReadMemoryCorrected(h, mboot, startAddress, byteCount, memoryId, Some(response), read).Returned?
    ensures var c := ReadMemoryCorrected(h, mboot, startAddress, byteCount, memoryId, Some(response), read);
      && c.out.Some?
      && Owned(c.heap, c.out.value.responseWords, WordsPointer)
      && Owned(c.heap, c.out.value.bytes, (b: Block) => b.ByteArray?)
      && FreeReadMemoryResponse(c.heap, c.out.value).live.Keys == h.live.Keys
  {
  }
}
