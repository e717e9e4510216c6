/** What `emit` and `Poll` (server-go/bus/client.go) come to in numbers: the header a receiver decodes, the answer to
    every situation, and what each kind of slot yields. */
module BusAnswers {
  import opened Words
  import FC = FrameCodec
  import FR = FrameRules
  import RC = RingCalls
  import RS = RingSteps
  import BC = BusClient
  import BS = BusSteps

  /** The header in an emitted slot, field by field: the sender's handle is the source, nothing is set but what the call
      names, and a payload lies inline right behind the header. */
  lemma EmittedHeader(image: seq<byte>, flags: u16, kind: u32, correlation: u64, payload: seq<byte>, handle: u32)
    requires |payload| < TWO32
    requires var f := BC.EmitFrame(flags, kind, correlation, |payload|, handle);
      BC.Carries(image, f, payload) && FC.Validate(f) == FC.OK
    ensures FC.Decode(image).Decoded?
    ensures var g := FC.Decode(image).frame;
      && g.hdrFlags == flags + (if payload != [] && flags % 2 == 0 then 1 else 0) && g.wireVersion == 3
      && g.eventKind == kind && g.correlationId == correlation && g.srcHandle == handle && g.dstHandle == 0
      && g.payloadLen == |payload| && g.payloadRef == (if payload == [] then 0 else 64)
      && g.principalRef == 0 && g.sequence == 0 && g.logicalTs == 0 && g.generation == 0
  {
    hide FC.Validate, FC.Decode;
    BC.DecodeCarried(image, BC.EmitFrame(flags, kind, correlation, |payload|, handle), payload);
  }

  /** The flag word of a request, reply or cancel fragment. */
  lemma FragmentWord(pattern: u16, more: bool, kind: u32, correlation: u64, len: u32, handle: u32)
    requires pattern == FC.F_REQUEST || pattern == FC.F_REPLY || (pattern == FC.F_CANCEL && !more)
    ensures pattern == 8 || pattern == 16 || pattern == 32
    ensures BC.EmitFrame(BC.FragmentFlags(pattern, more), kind, correlation, len, handle).hdrFlags
            == pattern + (if more then 128 else 0) + (if len > 0 then 1 else 0)
  {}

  /** A notification is valid exactly with correlation 0 and within the payload limit. */
  lemma NotificationIsValid(kind: u32, correlation: u64, len: u32, handle: u32)
    ensures FC.Validate(BC.EmitFrame(FC.F_NOTIFICATION, kind, correlation, len, handle)) == FC.OK
            <==> correlation == 0 && len <= 1_048_576
  {
    hide FC.Validate;
    FR.ValidExactly(BC.EmitFrame(FC.F_NOTIFICATION, kind, correlation, len, handle));
  }

  /** ... and is polled back with its kind and payload. */
  lemma NotificationIsPolled(image: seq<byte>, kind: u32, payload: seq<byte>, handle: u32)
    requires |payload| <= 1_048_576 && |image| < TWO32
    requires BC.Carries(image, BC.EmitFrame(FC.F_NOTIFICATION, kind, 0, |payload|, handle), payload)
    ensures BC.PollSlot(image).Got?
    ensures var e := BC.PollSlot(image).event;
      e.payload == payload && e.frame.eventKind == kind && e.frame.correlationId == 0
      && e.frame.hdrFlags == (if payload == [] then 4 else 5) && e.frame.srcHandle == handle
  {
    hide FC.Validate, BC.PollSlot;
    NotificationIsValid(kind, 0, |payload|, handle);
    BC.PollOfCarried(image, FC.F_NOTIFICATION, kind, 0, payload, handle);
  }

  /** What one slot yields. The payload is handed on exactly when the header calls it inline (bit 0) and its end, as the
      code computes it, is within the slot. */
  lemma PollExactly(slot: seq<byte>)
    ensures FC.Decode(slot).Rejected? <==> BC.PollSlot(slot) == BC.Skipped
    ensures FC.Decode(slot).Decoded? ==>
              var f := FC.Decode(slot).frame;
              var end := f.payloadRef + f.payloadLen;
              BC.PollSlot(slot) ==
              if f.hdrFlags % 2 == 0 || f.payloadLen == 0 || end % TWO64 > |slot| then BC.Got(BC.Event(f, []))
              else if end > |slot| then BC.Panicked
              else BC.Got(BC.Event(f, slot[f.payloadRef..end]))
  {
    hide FC.Decode, FC.Has;
    if FC.Decode(slot).Decoded? { FC.OddIsInline(FC.Decode(slot).frame.hdrFlags); }
  }

  /** The answers of `emit`, in the order of its tests. */
  lemma EmitAnswers(attached: bool, epochChanged: bool, budget: u32, handle: u32, s: RS.Shared, flags: u16, kind: u32,
      correlation: u64, payload: seq<byte>)
    requires s.capacity > 0 && |s.slots| == s.capacity
    ensures var n := |payload|;
      var err := BC.EmitOutcome(attached, epochChanged, budget, handle, s, flags, kind, correlation, payload);
      var tooLong := n > 0 && (n % 0x1_0000_0000 > budget || 64 + n > s.slotSize);
      && (err == BC.ErrPayload <==> attached && tooLong)
      && (err == BC.ErrEpoch <==> attached && !tooLong && epochChanged)
      && (err == BC.ErrWouldBlock <==>
            attached && !tooLong && !epochChanged && |RC.QueueOf(s)| >= s.capacity)
      && (err == BC.NoError ==>
            attached && !tooLong && !epochChanged && |RC.QueueOf(s)| < s.capacity && 64 <= s.slotSize
            && n < 0x1_0000_0000
            && FC.Validate(BC.EmitFrame(flags, kind, correlation, n, handle)) == FC.OK)
      && (err == BC.ErrProtocol <==>
            !attached || (!tooLong && !epochChanged && |RC.QueueOf(s)| < s.capacity
                          && (s.slotSize < 64 || n >= 0x1_0000_0000
                              || FC.Validate(BC.EmitFrame(flags, kind, correlation, n, handle)) != FC.OK)))
  {
    hide FC.Validate, RC.QueueOf, BC.EmitFrame;
  }

  /** The step-wise emitter makes the same tests as the whole call. */
  lemma SameTests(emitSlot: u32, s: RS.Shared, o: BS.Order)
    requires s.capacity > 0 && |s.slots| == s.capacity && o.Emit? && emitSlot == s.slotSize
    ensures var refusal := BS.Refusal(emitSlot, s.slotSize, o);
      BC.EmitOutcome(true, o.epochChanged, o.budget, o.handle, s, o.flags, o.kind, o.correlation, o.payload) ==
      if refusal != BC.NoError then refusal
      else if |RC.QueueOf(s)| >= s.capacity then BC.ErrWouldBlock
      else if BS.Encodable(o, s.slotSize) then BC.NoError else BC.ErrProtocol
  {
    hide FC.Validate, RC.QueueOf;
    if |o.payload| < TWO32 { ModUnique(|o.payload|, TWO32, 0, |o.payload|); }
  }
}
