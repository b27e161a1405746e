/** Verification and parameter-block services as the program runs them: a block state on
    top of the ISDU channel, advanced step by step. They compute ParameterBlock's functions. */
module BlockServer {
  import opened Status
  import opened Octets
  import opened IsduCodec
  import opened IsduTransport
  import opened IsduChannel
  import P = ParameterBlock
  import DS = DataStorage

  class ParameterServer {
    const channel: Channel
    var block: P.Block
    ghost var history: seq<P.Service>

    ghost predicate Valid()
      reads this, channel, channel.request, channel.response
    {
      channel.Valid() && |block.data| + WRITE_HEADER_MAX <= channel.response.Length
    }

    ghost function State(): P.Server
      reads this, channel, channel.request, channel.response
      requires Valid()
    {
      P.Server(channel.State(), block, history)
    }

    constructor (channel: Channel)
      requires channel.Valid()
      ensures Valid() && this.channel == channel && State() == P.Server(channel.State(), P.NO_BLOCK, [])
    {
      this.channel := channel;
      block := P.NO_BLOCK;
      history := [];
    }

    /** Latch a service result unless the service is pending. */
    method ServiceResult(ret: int)
      requires Valid()
      modifies channel
      ensures Valid()
      ensures State() == if ret == PENDING then old(State())
                         else old(State()).(isdu := old(channel.State()).(lastResult := ret))
    {
      hide XorNat, Assembling;
      if ret != PENDING {
        channel.isdu := channel.isdu.(lastResult := ret);
      }
    }

    /** The verdict of a readback. */
    method Judge(data: seq<byte>) returns (verified: bool)
      requires Valid() && |data| <= 255
      ensures verified == P.Verified(block, data)
    {
      if block.index == P.DATA_STORAGE && block.subindex == 0 {
        var expectedValid := DS.ImageIsValid(block.data);
        var dataValid := DS.ImageIsValid(data);
        if expectedValid && dataValid {
          verified := DS.ImageContainsRecords(data, block.data);
          return;
        }
      }
      return data == block.data;
    }

    /** Read back the block's object and judge it. */
    method VerifyStep(communicating: bool) returns (ret: int)
      requires Valid()
      modifies channel, channel.request
      ensures Valid() && block == old(block) && history == old(history)
      ensures (channel.State(), ret) == P.Verify(old(channel.State()), communicating, old(block))
    {
      hide Encode, Assembling, XorAll, P.Verified;
      var data := new byte[channel.response.Length];
      var len;
      ret, len := channel.Read(communicating, block.index, block.subindex, data, 255);
      if ret != OK {
        return;
      }
      var verified := Judge(data[..len]);
      ret := if verified then OK else ERR_VERIFY_FAILED;
      channel.isdu := channel.isdu.(lastResult := ret);
    }

    method WriteStep(communicating: bool, index: u16, subindex: byte, data: seq<byte>, next: P.Step) returns (ret: int)
      requires Valid()
      modifies this, channel, channel.request
      ensures Valid()
      ensures (State(), ret) == P.Wrote1(old(State()), communicating, Request(false, index, subindex, data), next)
    {
      hide Encode, Wf, XorAll, Assembling, T.Write;
      ghost var sent := channel.State().request;
      ret := channel.Write(communicating, index, subindex, data);
      if ret == OK {
        block := block.(step := next);
        history := history + [P.Wrote(sent)];
      }
    }

    /** Begin, resume or finish the transfer of a parameter block. */
    method WriteParameterBlock(communicating: bool, index: u16, subindex: byte, data: seq<byte>) returns (ret: int)
      requires Valid()
      modifies this, channel, channel.request
      ensures Valid()
      ensures (State(), ret) == P.WriteBlock(old(State()), communicating, index, subindex, data)
    {
      hide P.Wrote1, P.Verify, P.Verified, Wf, Encode;
      if |data| > channel.response.Length - WRITE_HEADER_MAX {
        return ERR_BUFFER_TOO_SMALL;
      }
      if block.step == P.StepNone {
        block := P.Block(P.StepBegin, index, subindex, data);
        history := [];
      } else if block != P.Block(block.step, index, subindex, data) {
        ServiceResult(ERR_BUSY);
        return ERR_BUSY;
      }
      ret := Advance(communicating);
    }

    /** The steps from the current one on, until one does not complete. */
    method Advance(communicating: bool) returns (ret: int)
      requires Valid() && block.step != P.StepNone
      modifies this, channel, channel.request
      ensures Valid()
      ensures (State(), ret) == P.Resume(old(State()), communicating)
    {
      hide T.Write, P.FromVerify, Wf, Encode, Valid;
      if block.step == P.StepBegin {
        ret := WriteStep(communicating, P.SYSTEM_COMMAND, 0, [P.DOWNLOAD_START], P.StepWrite);
        if ret != OK {
          return;
        }
      }
      if block.step == P.StepWrite {
        ret := WriteStep(communicating, block.index, block.subindex, block.data, P.StepEnd);
        if ret != OK {
          return;
        }
      }
      if block.step == P.StepEnd {
        ret := WriteStep(communicating, P.SYSTEM_COMMAND, 0, [P.DOWNLOAD_END], P.StepVerify);
        if ret != OK {
          return;
        }
      }
      ret := Conclude(communicating);
    }

    /** Verify, and clear the block unless the readback is still pending. */
    method Conclude(communicating: bool) returns (ret: int)
      requires Valid()
      modifies this, channel, channel.request
      ensures Valid()
      ensures (State(), ret) == P.FromVerify(old(State()), communicating)
    {
      hide P.Verified, P.Verify, Encode, Assembling;
      ghost var s := channel.State();
      ret := VerifyStep(communicating);
      if ret == OK {
        block := P.NO_BLOCK;
        history := history + [P.ReadBack(s.request, s.response)];
      } else if ret < 0 {
        block := P.NO_BLOCK;
      }
      ServiceResult(ret);
    }
  }
}
