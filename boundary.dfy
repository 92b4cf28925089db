/** The page side of the WebAssembly boundary in web/main.js: copying float
    arrays into the module's linear memory around a call (allocate, copy,
    call, free; or allocate once and overwrite every frame), reading back C
    strings the module returns, and the per-frame update. The module's exports
    are not modelled: malloc's answer is a parameter, and the other exports are
    functions of their arguments passed in as values. */
module Boundary {

  import opened Wrappers
  import opened Memory
  import opened Indicators

  /** The exceptions the page's own code can raise, and any exception a
      callback raises. */
  datatype Error = RangeError | ReadUndefinedMemory | Thrown

  datatype Result<T> = Ok(value: T) | Err(error: Error)

  /** A Float32Array: a view of `length` elements from `byteOffset` on in an
      ArrayBuffer holding `buffer`. */
  datatype Float32Array = Float32Array(buffer: seq<byte>, byteOffset: nat, length: nat) {

    predicate Valid() {
      byteOffset % BytesPerElement == 0 && byteOffset + BytesPerElement * length <= |buffer|
    }

    function Values(): seq<F32>
      requires Valid()
    {
      Decode(buffer[byteOffset..byteOffset + BytesPerElement * length])
    }
  }

  /** `new Float32Array(values)`: a view of a buffer of its own. */
  function NewFloat32Array(values: seq<F32>): (a: Float32Array)
    ensures a.Valid() && a.byteOffset == 0 && a.length == |values|
    ensures a.Values() == values && a.buffer == Encode(values)
  {
    DecodeEncode(values);
    assert Encode(values)[0..BytesPerElement * |values|] == Encode(values);
    Float32Array(Encode(values), 0, |values|)
  }

  /** What a marshaller accepts: a JavaScript array of numbers or a
      Float32Array. */
  datatype JsArray = Numbers(elements: seq<F32>) | Typed(typed: Float32Array) {

    predicate Valid() {
      Typed? ==> typed.Valid()
    }

    function Length(): nat {
      if Numbers? then |elements| else typed.length
    }

    function Elements(): seq<F32>
      requires Valid()
    {
      if Numbers? then elements else typed.Values()
    }
  }

  /** `(jsArray instanceof Float32Array) ? jsArray : new Float32Array(jsArray)` */
  function AsFloat32Array(a: JsArray): (r: Float32Array)
    requires a.Valid()
    ensures r.Valid() && r.length == a.Length() && r.Values() == a.Elements()
  {
    if a.Numbers? then NewFloat32Array(a.elements) else a.typed
  }

  /** `set` of a whole buffer into a view sized for the array's elements
      succeeds exactly when the array spans its buffer. */
  predicate SpansBuffer(a: Float32Array) {
    |a.buffer| <= BytesPerElement * a.length
  }

  /** An array that spans its buffer starts at offset 0 and its buffer holds
      exactly the bytes of its elements. */
  lemma SpanningBufferIsElements(a: Float32Array)
    requires a.Valid() && SpansBuffer(a)
    ensures a.byteOffset == 0 && a.buffer == Encode(a.Values())
  {
    assert a.buffer[0..BytesPerElement * a.length] == a.buffer;
    EncodeDecode(a.buffer);
  }

  /** The tail of a buffer is the frame exactly when the frame's view ends at
      the end of its buffer, as the analyser's reused array does. */
  lemma TailIsFrameAtEndOfBuffer(a: Float32Array)
    requires a.Valid() && a.byteOffset + BytesPerElement * a.length == |a.buffer|
    ensures Tail(a.buffer, BytesPerElement * a.length) == Encode(a.Values())
  {
    assert a.buffer[a.byteOffset..a.byteOffset + BytesPerElement * a.length] == a.buffer[a.byteOffset..];
    EncodeDecode(a.buffer[a.byteOffset..]);
  }

  /** A view over the first element of a two-element buffer: the tail of the
      buffer is the second element, not the frame. */
  lemma TailOfLargerBufferIsNotTheFrame()
    ensures var a := Float32Array([1, 0, 0, 0, 2, 0, 0, 0], 0, 1);
      a.Valid() && Tail(a.buffer, 4) == [2, 0, 0, 0] && Encode(a.Values()) == [1, 0, 0, 0]
  {
    var a := Float32Array([1, 0, 0, 0, 2, 0, 0, 0], 0, 1);
    assert a.buffer[0..4] == [1, 0, 0, 0];
    assert Decode([1, 0, 0, 0]) == [1];
  }

  /** Where a string the module returns lies: the pointer hz_to_pitch returns
      and the bytes (terminator included) it stored from there on. */
  datatype CString = CString(ptr: nat, bytes: seq<byte>)

  /** The exports the page calls besides malloc and free, as functions of
      their arguments and, where they read it, of linear memory. A Rust
      panic traps the instance and reaches the page as an exception, so each
      export may give an `Err` instead of its answer (the `unwrap` of
      find_fundamental_frequency does, on a flat spectrum). */
  datatype Exports = Exports(
    findFundamentalFrequency: (seq<byte>, nat, nat, real) -> Result<Number>,
    hzToPitch: Number -> Result<CString>,
    hzToCentsError: Number -> Result<Number>,
    correlation: (seq<byte>, nat, real) -> Result<seq<byte>>)

  /** The module keeps its strings inside its memory and its correlation
      writes exactly the region it is given. */
  ghost predicate WellBehaved(exports: Exports, size: nat) {
    && (forall hz: Number :: exports.hzToPitch(hz).Ok? ==>
          exports.hzToPitch(hz).value.ptr + |exports.hzToPitch(hz).value.bytes| <= size)
    && (forall region: seq<byte>, n: nat, rate: real :: exports.correlation(region, n, rate).Ok? ==>
          |exports.correlation(region, n, rate).value| == |region|)
  }

  /** A callback that rewrites the region it is given keeps its size. */
  ghost predicate KeepsLength(mutate: seq<byte> -> Result<seq<byte>>) {
    forall region: seq<byte> :: mutate(region).Ok? ==> |mutate(region).value| == |region|
  }

  /** The calls the page makes into the module (and to the view), in order. */
  datatype Event =
    | Malloc(size: nat, ptr: nat)
    | Free(ptr: nat, size: nat)
    // A marshaller's call of the callback it was given. findFundamentalFrequency
    // and correlation reach their exports only through such a callback, so the
    // marshaller logs the callback, not the export behind it.
    | Callback(ptr: nat, length: nat)
    // findFundamentalFrequencyNoFree's direct call of the export.
    | FindFundamentalFrequency(ptr: nat, length: nat, samplingRate: real)
    | HzToPitch(hz: Number)
    | FreeStr(ptr: nat)
    | HzToCentsError(hz: Number)
    | Draw(pitch: string, error: Number)

  /** What the second half of jsArrayToF32ArrayPtrMutateInPlace ends in,
      from memory `m` that holds the copied array in the block at `ptr`: a
      callback that throws leaves memory as it was and the block allocated;
      otherwise the block holds what the callback wrote, and reading it back
      as floats either fails (an unaligned pointer, before free) or gives
      those floats and frees the block. */
  ghost predicate MutatedInPlace(mutate: seq<byte> -> Result<seq<byte>>, ptr: nat, length: nat,
                                 m: seq<byte>, m': seq<byte>, calls: seq<Event>, calls': seq<Event>,
                                 result: Result<seq<F32>>)
    requires ptr + BytesPerElement * length <= |m| && KeepsLength(mutate)
  {
    var input := m[ptr..ptr + BytesPerElement * length];
    var called := calls + [Callback(ptr, length)];
    match mutate(input)
    case Err(e) =>
      result == Err(e) && m' == m && calls' == called
    case Ok(output) =>
      && m' == Write(m, ptr, output)
      && result == (if ptr % BytesPerElement == 0 then Ok(Decode(output)) else Err(RangeError))
      && calls' == called + (if result.Ok? then [Free(ptr, |input|)] else [])
  }

  /** The floats read back have as many elements as were copied in. */
  lemma MutatedInPlaceKeepsLength(mutate: seq<byte> -> Result<seq<byte>>, values: seq<F32>, ptr: nat,
                                  m: seq<byte>, m': seq<byte>, calls: seq<Event>, calls': seq<Event>,
                                  result: Result<seq<F32>>)
    requires ptr + BytesPerElement * |values| <= |m| && KeepsLength(mutate)
    requires MutatedInPlace(mutate, ptr, |values|, Write(m, ptr, Encode(values)), m', calls, calls', result)
    ensures result.Ok? ==> |result.value| == |values|
  {
    var input := Write(m, ptr, Encode(values))[ptr..ptr + BytesPerElement * |values|];
    assert |input| == BytesPerElement * |values|;
  }

  /** A callback that leaves the block as it found it gives back the
      array's own elements, when the block is aligned. */
  lemma MutatedInPlaceReadsBack(mutate: seq<byte> -> Result<seq<byte>>, values: seq<F32>, ptr: nat,
                                m: seq<byte>, m': seq<byte>, calls: seq<Event>, calls': seq<Event>,
                                result: Result<seq<F32>>)
    requires ptr + BytesPerElement * |values| <= |m| && KeepsLength(mutate)
    requires MutatedInPlace(mutate, ptr, |values|, Write(m, ptr, Encode(values)), m', calls, calls', result)
    requires mutate(Encode(values)) == Ok(Encode(values))
    ensures ptr % BytesPerElement == 0 ==> result == Ok(values)
    ensures ptr % BytesPerElement != 0 ==> result == Err(RangeError)
  {
    assert Write(m, ptr, Encode(values))[ptr..ptr + BytesPerElement * |values|] == Encode(values);
    DecodeEncode(values);
  }

  /** A Uint8Array view of linear memory. */
  datatype Region = Region(offset: nat, length: nat)

  /** What naming and drawing a fundamental ends in, going
      from memory `m` to memory `m'`: an export that throws ends the frame
      there; hz_to_pitch stores its string; when the string has no
      terminator copyCStr throws and nothing is freed or drawn; otherwise the
      string is freed, the cents error of the same fundamental is computed
      and the view draws both. A frame that throws leaves the view as it was. */
  ghost predicate PitchShown(exports: Exports, utf8: seq<byte> -> string, fundamental: Number, timestamp: real,
                        m: seq<byte>, m': seq<byte>, before: seq<Event>, after: seq<Event>,
                        view: ViewState, view': ViewState, outcome: Result<()>, pitch: string)
    requires WellBehaved(exports, |m|)
  {
    match exports.hzToPitch(fundamental)
    case Err(e) =>
      outcome == Err(e) && m' == m && after == before + [Event.HzToPitch(fundamental)] && view' == view
    case Ok(s) =>
      && m' == Write(m, s.ptr, s.bytes)
      && match ScanCStr(m', s.ptr)
         case None =>
           outcome == Err(ReadUndefinedMemory) && after == before + [Event.HzToPitch(fundamental)] && view' == view
         case Some(bytes) =>
           && pitch == utf8(bytes)
           && Drawn(exports, fundamental, timestamp, pitch, before + [Event.HzToPitch(fundamental), FreeStr(s.ptr)],
                    after, view, view', outcome)
  }

  /** The end of a frame once its pitch is named: the cents error of the
      same fundamental is computed and, unless that throws, the view draws
      the pitch and the error. */
  ghost predicate Drawn(exports: Exports, fundamental: Number, timestamp: real, pitch: string,
                        before: seq<Event>, after: seq<Event>, view: ViewState, view': ViewState, outcome: Result<()>)
  {
    var asked := before + [Event.HzToCentsError(fundamental)];
    match exports.hzToCentsError(fundamental)
    case Err(e) => outcome == Err(e) && after == asked && view' == view
    case Ok(error) =>
      && outcome == Ok(())
      && after == asked + [Draw(pitch, error)]
      && view' == AfterDraw(view, timestamp, pitch, error)
  }

  /** The page's module-level state: the instance's linear memory, the
      buffer remembered by findFundamentalFrequencyNoFree, and, as a ghost,
      the calls made so far. */
  class Page {
    const memory: array<byte>
    ghost var calls: seq<Event>
    var nDataBytes: nat
    /** 0 stands for both the initial null and a zero pointer, which `!dataPtr`
        treats alike. */
    var dataPtr: nat
    var dataHeap: Option<Region>

    ghost predicate Valid()
      reads this
    {
      && (dataHeap.Some? ==> dataHeap.value == Region(dataPtr, nDataBytes) && dataPtr + nDataBytes <= memory.Length)
      && (dataPtr != 0 ==> dataHeap.Some?)
    }

    constructor (initial: seq<byte>)
      ensures Valid() && fresh(memory) && memory[..] == initial
      ensures calls == [] && dataPtr == 0 && dataHeap.None?
    {
      memory := new byte[|initial|](i requires 0 <= i < |initial| => initial[i]);
      calls := [];
      nDataBytes, dataPtr, dataHeap := 0, 0, None;
    }

    /** `new Uint8Array(memory.buffer, view.offset, view.length).set(src)`:
        a RangeError when the source is longer than the view. */
    method Set(view: Region, src: seq<byte>) returns (ok: bool)
      requires view.offset + view.length <= memory.Length
      modifies memory
      ensures ok <==> |src| <= view.length
      ensures ok ==> memory[..] == Write(old(memory[..]), view.offset, src)
      ensures !ok ==> memory[..] == old(memory[..])
    {
      ok := |src| <= view.length;
      if !ok {
        return;
      }
      for i := 0 to |src|
        invariant memory[..] == Write(old(memory[..]), view.offset, src[..i])
      {
        WriteOneMore(old(memory[..]), view.offset, src, i);
        memory[view.offset + i] := src[i];
      }
      assert src[..|src|] == src;
    }

    /** jsArrayToF32ArrayPtr: malloc `4 * length` bytes (`mallocPtr` is what
        malloc returns), copy the array's buffer there, call the callback with
        the pointer and the length, free the same block and return the
        callback's result. An exception leaves the block allocated. */
    method JsArrayToF32ArrayPtr<R>(jsArray: JsArray, callback: (seq<byte>, nat, nat) -> Result<R>, mallocPtr: nat)
      returns (result: Result<R>)
      requires jsArray.Valid()
      requires mallocPtr + BytesPerElement * jsArray.Length() <= memory.Length
      modifies this`calls, memory
      ensures var size := BytesPerElement * jsArray.Length();
        if !SpansBuffer(AsFloat32Array(jsArray)) then
          && result == Err(RangeError)
          && memory[..] == old(memory[..])
          && calls == old(calls) + [Malloc(size, mallocPtr)]
        else
          && memory[..] == Write(old(memory[..]), mallocPtr, Encode(jsArray.Elements()))
          && result == callback(memory[..], mallocPtr, jsArray.Length())
          && calls == old(calls) + [Malloc(size, mallocPtr), Callback(mallocPtr, jsArray.Length())]
                       + (if result.Ok? then [Free(mallocPtr, size)] else [])
    {
      var data := AsFloat32Array(jsArray);
      var size := data.length * BytesPerElement;
      calls := calls + [Malloc(size, mallocPtr)];
      var ptr := mallocPtr;
      var ok := Set(Region(ptr, size), data.buffer);
      if !ok {
        return Err(RangeError);
      }
      SpanningBufferIsElements(data);
      calls := calls + [Callback(ptr, jsArray.Length())];
      result := callback(memory[..], ptr, jsArray.Length());
      if result.Err? {
        return;
      }
      calls := calls + [Free(ptr, size)];
    }

    /** jsArrayToF32ArrayPtrMutateInPlace: copy the array into a fresh block,
        let the callback rewrite the block, read it back as floats and free
        the block. */
    method JsArrayToF32ArrayPtrMutateInPlace(jsArray: JsArray, mutate: seq<byte> -> Result<seq<byte>>, mallocPtr: nat)
      returns (result: Result<seq<F32>>)
      requires jsArray.Valid() && KeepsLength(mutate)
      requires mallocPtr + BytesPerElement * jsArray.Length() <= memory.Length
      modifies this`calls, memory
      ensures var copied := Write(old(memory[..]), mallocPtr, Encode(jsArray.Elements()));
        MutatedInPlace(mutate, mallocPtr, jsArray.Length(), copied, memory[..],
                       old(calls) + [Malloc(BytesPerElement * jsArray.Length(), mallocPtr)], calls, result)
    {
      var size := CopyToHeap(jsArray.Elements(), mallocPtr);
      result := MutateBlock(mallocPtr, jsArray.Length(), mutate);
    }

    /** The callback's turn and the read back: the callback rewrites the
        block, the block is read as floats and freed. */
    method MutateBlock(ptr: nat, length: nat, mutate: seq<byte> -> Result<seq<byte>>) returns (result: Result<seq<F32>>)
      requires ptr + BytesPerElement * length <= memory.Length && KeepsLength(mutate)
      modifies this`calls, memory
      ensures MutatedInPlace(mutate, ptr, length, old(memory[..]), memory[..], old(calls), calls, result)
    {
      var size := BytesPerElement * length;
      calls := calls + [Callback(ptr, length)];
      var mutated := mutate(memory[ptr..ptr + size]);
      if mutated.Err? {
        return Err(mutated.error);
      }
      var output := mutated.value;
      var ok := Set(Region(ptr, size), output);
      result := ReadFloats(ptr, length);
      if result.Err? {
        return;
      }
      calls := calls + [Free(ptr, size)];
      assert memory[ptr..ptr + size] == output;
      DecodeEncode(result.value);
    }

    /** `new Float32Array(values)`, malloc, and `set` of its buffer into the
        block: the elements' bytes are stored at the block. */
    method CopyToHeap(values: seq<F32>, ptr: nat) returns (nDataBytes: nat)
      requires ptr + BytesPerElement * |values| <= memory.Length
      modifies this`calls, memory
      ensures nDataBytes == BytesPerElement * |values|
      ensures memory[..] == Write(old(memory[..]), ptr, Encode(values))
      ensures calls == old(calls) + [Malloc(nDataBytes, ptr)]
    {
      var data := NewFloat32Array(values);
      nDataBytes := data.length * BytesPerElement;
      calls := calls + [Malloc(nDataBytes, ptr)];
      var ok := Set(Region(ptr, nDataBytes), data.buffer);
    }

    /** `Array.prototype.slice.call(new Float32Array(memory.buffer, ptr, length))`:
        the floats stored there, or a RangeError when the pointer is not a
        multiple of the element size. */
    method ReadFloats(ptr: nat, length: nat) returns (result: Result<seq<F32>>)
      requires ptr + BytesPerElement * length <= memory.Length
      ensures result.Ok? <==> ptr % BytesPerElement == 0
      ensures result.Err? ==> result.error == RangeError
      ensures result.Ok? ==> |result.value| == length
      ensures result.Ok? ==> Encode(result.value) == memory[ptr..ptr + BytesPerElement * length]
    {
      if ptr % BytesPerElement != 0 {
        return Err(RangeError);
      }
      var region := memory[ptr..ptr + BytesPerElement * length];
      result := Ok(Decode(region));
      EncodeDecode(region);
    }

    /** findFundamentalFrequency: the transient marshaller around the export. */
    method FindFundamentalFrequency(data: JsArray, samplingRate: real, exports: Exports, mallocPtr: nat)
      returns (result: Result<Number>)
      requires data.Valid()
      requires mallocPtr + BytesPerElement * data.Length() <= memory.Length
      modifies this`calls, memory
      ensures var size := BytesPerElement * data.Length();
        if SpansBuffer(AsFloat32Array(data)) then
          && memory[..] == Write(old(memory[..]), mallocPtr, Encode(data.Elements()))
          && result == exports.findFundamentalFrequency(memory[..], mallocPtr, data.Length(), samplingRate)
          && calls == old(calls) + [Malloc(size, mallocPtr), Callback(mallocPtr, data.Length())]
                       + (if result.Ok? then [Free(mallocPtr, size)] else [])
        else
          && result == Err(RangeError)
          && memory[..] == old(memory[..])
          && calls == old(calls) + [Malloc(size, mallocPtr)]
    {
      result := JsArrayToF32ArrayPtr(data, (m, ptr, length) => exports.findFundamentalFrequency(m, ptr, length, samplingRate), mallocPtr);
    }

    /** findFundamentalFrequencyNoFree: on the first call (while dataPtr is
        falsy) malloc a block for `data.length` floats and remember it; on
        every call overwrite the block with the last nDataBytes bytes of the
        array's buffer and call the export with `data.length`. */
    method FindFundamentalFrequencyNoFree(data: Float32Array, samplingRate: real, exports: Exports, mallocPtr: nat)
      returns (result: Result<Number>)
      requires Valid() && data.Valid()
      requires dataPtr == 0 ==> mallocPtr + BytesPerElement * data.length <= memory.Length
      modifies this, memory
      ensures Valid()
      ensures old(dataPtr) == 0 ==>
        nDataBytes == BytesPerElement * data.length && dataPtr == mallocPtr && dataHeap == Some(Region(mallocPtr, nDataBytes))
      ensures old(dataPtr) != 0 ==>
        dataPtr == old(dataPtr) && nDataBytes == old(nDataBytes) && dataHeap == old(dataHeap)
      ensures var allocation := if old(dataPtr) == 0 then [Malloc(BytesPerElement * data.length, mallocPtr)] else [];
        if |data.buffer| < nDataBytes then
          && result == Err(RangeError)
          && memory[..] == old(memory[..])
          && calls == old(calls) + allocation
        else
          && memory[..] == Write(old(memory[..]), dataPtr, Tail(data.buffer, nDataBytes))
          && result == exports.findFundamentalFrequency(memory[..], dataPtr, data.length, samplingRate)
          && calls == old(calls) + allocation + [Event.FindFundamentalFrequency(dataPtr, data.length, samplingRate)]
    {
      if dataPtr == 0 {
        nDataBytes := data.length * BytesPerElement;
        calls := calls + [Malloc(nDataBytes, mallocPtr)];
        dataPtr := mallocPtr;
        dataHeap := Some(Region(dataPtr, nDataBytes));
      }
      // new Uint8Array(data.buffer, data.buffer.byteLength - nDataBytes): a negative offset is a RangeError
      if |data.buffer| < nDataBytes {
        return Err(RangeError);
      }
      var ok := Set(dataHeap.value, Tail(data.buffer, nDataBytes));
      calls := calls + [Event.FindFundamentalFrequency(dataPtr, data.length, samplingRate)];
      result := exports.findFundamentalFrequency(memory[..], dataPtr, data.length, samplingRate);
    }

    /** copyCStr: collect the bytes from `ptr` up to the first zero byte,
        throwing when memory ends first; decode them and free the string. */
    method CopyCStr(ptr: nat, utf8: seq<byte> -> string) returns (result: Result<string>)
      modifies this`calls
      ensures ScanCStr(memory[..], ptr).None? ==> result == Err(ReadUndefinedMemory) && calls == old(calls)
      ensures ScanCStr(memory[..], ptr).Some? ==>
        result == Ok(utf8(ScanCStr(memory[..], ptr).value)) && calls == old(calls) + [FreeStr(ptr)]
    {
      var iter := ptr;
      var collected: seq<byte> := [];
      while iter >= memory.Length || memory[iter] != 0
        invariant ptr <= iter && iter - ptr == |collected|
        invariant iter > ptr ==> iter <= memory.Length
        invariant forall j :: 0 <= j < |collected| ==> ptr + j < memory.Length && memory[ptr + j] == collected[j] && collected[j] != 0
        decreases memory.Length - iter
      {
        if iter >= memory.Length {
          assert forall i :: ptr <= i < memory.Length ==> memory[..][i] == collected[i - ptr] != 0;
          return Err(ReadUndefinedMemory);
        }
        collected := collected + [memory[iter]];
        iter := iter + 1;
      }
      ScanCStrStopsAtFirstZero(memory[..], ptr, collected);
      calls := calls + [FreeStr(ptr)];
      result := Ok(utf8(collected));
    }

    /** hzToPitch: the export stores its answer as a C string and returns
        the pointer, which copyCStr reads and frees. */
    method HzToPitch(hz: Number, exports: Exports, utf8: seq<byte> -> string) returns (result: Result<string>)
      requires WellBehaved(exports, memory.Length)
      modifies this`calls, memory
      ensures match exports.hzToPitch(hz)
        case Err(e) =>
          result == Err(e) && memory[..] == old(memory[..]) && calls == old(calls) + [Event.HzToPitch(hz)]
        case Ok(s) =>
          && memory[..] == Write(old(memory[..]), s.ptr, s.bytes)
          && match ScanCStr(memory[..], s.ptr)
             case None => result == Err(ReadUndefinedMemory) && calls == old(calls) + [Event.HzToPitch(hz)]
             case Some(bytes) => result == Ok(utf8(bytes)) && calls == old(calls) + [Event.HzToPitch(hz), FreeStr(s.ptr)]
    {
      var s := exports.hzToPitch(hz);
      calls := calls + [Event.HzToPitch(hz)];
      if s.Err? {
        return Err(s.error);
      }
      var ok := Set(Region(s.value.ptr, |s.value.bytes|), s.value.bytes);
      result := CopyCStr(s.value.ptr, utf8);
    }

    /** hzToCentsError: a plain call of the export. */
    method HzToCentsError(hz: Number, exports: Exports) returns (error: Result<Number>)
      modifies this`calls
      ensures error == exports.hzToCentsError(hz)
      ensures calls == old(calls) + [Event.HzToCentsError(hz)]
    {
      calls := calls + [Event.HzToCentsError(hz)];
      error := exports.hzToCentsError(hz);
    }

    /** correlation: the mutate-in-place marshaller around the export, which
        rewrites the block with the correlation of its samples. */
    method Correlation(data: JsArray, samplingRate: real, exports: Exports, mallocPtr: nat)
      returns (result: Result<seq<F32>>)
      requires data.Valid() && WellBehaved(exports, memory.Length)
      requires mallocPtr + BytesPerElement * data.Length() <= memory.Length
      modifies this`calls, memory
      ensures var size := BytesPerElement * data.Length();
        var called := old(calls) + [Malloc(size, mallocPtr), Callback(mallocPtr, data.Length())];
        match exports.correlation(Encode(data.Elements()), data.Length(), samplingRate)
        case Err(e) =>
          && result == Err(e)
          && memory[..] == Write(old(memory[..]), mallocPtr, Encode(data.Elements()))
          && calls == called
        case Ok(output) =>
          && |output| == size
          && memory[..] == Write(old(memory[..]), mallocPtr, output)
          && result == (if mallocPtr % BytesPerElement == 0 then Ok(Decode(output)) else Err(RangeError))
          && calls == called + (if result.Ok? then [Free(mallocPtr, size)] else [])
    {
      var mutate := (region: seq<byte>) => exports.correlation(region, data.Length(), samplingRate);
      ghost var values := Encode(data.Elements());
      ghost var copied := Write(memory[..], mallocPtr, values);
      assert copied[mallocPtr..mallocPtr + BytesPerElement * data.Length()] == values;
      assert KeepsLength(mutate);
      result := JsArrayToF32ArrayPtrMutateInPlace(data, mutate, mallocPtr);
      if mutate(values).Ok? {
        WriteTwice(old(memory[..]), mallocPtr, values, mutate(values).value);
      }
    }

    /** The second half of update: name the fundamental, read the name
        back, compute the cents error and draw. */
    method ShowPitch(view: View, fundamental: Number, timestamp: real, exports: Exports, utf8: seq<byte> -> string)
      returns (outcome: Result<()>, ghost pitch: string)
      requires view.Valid() && WellBehaved(exports, memory.Length)
      modifies this`calls, memory, view
      ensures view.Valid()
      ensures PitchShown(exports, utf8, fundamental, timestamp, old(memory[..]), memory[..],
                         old(calls), calls, old(view.State()), view.State(), outcome, pitch)
    {
      pitch := [];
      var p := HzToPitch(fundamental, exports, utf8);
      if p.Err? {
        return Err(p.error), pitch;
      }
      pitch := p.value;
      outcome := DrawPitch(view, fundamental, timestamp, exports, p.value);
    }

    /** The end of update once the pitch is named: hzToCentsError of the same
        fundamental, then draw. */
    method DrawPitch(view: View, fundamental: Number, timestamp: real, exports: Exports, pitch: string)
      returns (outcome: Result<()>)
      requires view.Valid()
      modifies this`calls, view
      ensures view.Valid()
      ensures Drawn(exports, fundamental, timestamp, pitch, old(calls), calls, old(view.State()), view.State(), outcome)
    {
      var error := HzToCentsError(fundamental, exports);
      if error.Err? {
        return Err(error.error);
      }
      calls := calls + [Draw(pitch, error.value)];
      view.Draw(timestamp, pitch, error.value);
      outcome := Ok(());
    }

    /** update: one frame. The fundamental is computed once, through the
        reused block; the pitch name and the cents error are both computed
        from it, in that order, and then the view draws them. An exception
        abandons the frame and leaves the view as it was. */
    method Update(view: View, signal: Float32Array, sampleRate: real, timestamp: real,
                  exports: Exports, utf8: seq<byte> -> string, mallocPtr: nat)
      returns (outcome: Result<()>, ghost fundamental: Number, ghost pitch: string)
      requires Valid() && view.Valid() && signal.Valid() && WellBehaved(exports, memory.Length)
      requires dataPtr == 0 ==> mallocPtr + BytesPerElement * signal.length <= memory.Length
      modifies this, memory, view
      ensures Valid() && view.Valid()
      ensures old(dataPtr) == 0 ==> nDataBytes == BytesPerElement * signal.length && dataPtr == mallocPtr
      ensures old(dataPtr) != 0 ==> dataPtr == old(dataPtr) && nDataBytes == old(nDataBytes)
      ensures var allocation := if old(dataPtr) == 0 then [Malloc(BytesPerElement * signal.length, mallocPtr)] else [];
        if |signal.buffer| < nDataBytes then
          && outcome == Err(RangeError)
          && memory[..] == old(memory[..])
          && calls == old(calls) + allocation
          && view.State() == old(view.State())
        else
          var frame := Write(old(memory[..]), dataPtr, Tail(signal.buffer, nDataBytes));
          var found := old(calls) + allocation + [Event.FindFundamentalFrequency(dataPtr, signal.length, sampleRate)];
          match exports.findFundamentalFrequency(frame, dataPtr, signal.length, sampleRate)
          case Err(e) =>
            outcome == Err(e) && memory[..] == frame && calls == found && view.State() == old(view.State())
          case Ok(f) =>
            && fundamental == f
            && PitchShown(exports, utf8, f, timestamp, frame, memory[..], found, calls, old(view.State()), view.State(), outcome, pitch)
    {
      fundamental, pitch := NaN, [];
      var f := FindFundamentalFrequencyNoFree(signal, sampleRate, exports, mallocPtr);
      if f.Err? {
        return Err(f.error), fundamental, pitch;
      }
      fundamental := f.value;
      outcome, pitch := ShowPitch(view, f.value, timestamp, exports, utf8);
    }
  }
}
