/**
  The two all-switches wrappers of ruby/trema/switch-event.c and their completion handler, as
  methods that allocate and release `callback_info` records around the interface's own state.
*/
module SwitchEventWrappers {
  import opened EventForwardProtocol
  import opened EventForwardInvariant
  import opened EventForwardSteps
  import opened EventForwardInterface
  import opened SwitchEvent

  class Wrappers {
    const efi: Interface
    var infos: map<ParamId, CallbackInfo>
    var blockCalls: seq<BlockCall>
    ghost var released: seq<ParamId>
    ghost var blocks: map<ParamId, bool>

    ghost function Abs(): Client
      reads this, efi
    {
      Client(efi.Abs(), infos, released, blockCalls, blocks)
    }

    ghost predicate Valid()
      reads this, efi
    {
      ClientInv(Abs()) && efi.Counting()
    }

    constructor ()
      ensures Valid() && fresh(efi) && Abs() == CLIENT_INIT
    {
      hide ClientInv, Inv;
      efi := new Interface();
      infos, blockCalls, released, blocks := map[], [], [], map[];
      StartsValid();
    }

    /** The record is allocated, handed to the interface, and released again if that refuses. */
    method Request(op: Operation, hasBlock: bool, sent: bool)
      modifies this, efi
      ensures Abs() == Wrapper(old(Abs()), op, hasBlock, sent)
      ensures efi.lastTxid == old(efi.lastTxid)
    {
      var cb := CallbackInfo(hasBlock);
      var p := efi.StartRequest(Param(op, true), sent);
      if sent {
        infos := infos[p := cb];
        blocks := blocks[p := hasBlock];
      } else {
        released := released + [p];
      }
    }

    /** add_forward_entry_to_all_switches and delete_forward_entry_from_all_switches. */
    method AllSwitches(knownType: bool, op: Operation, hasBlock: bool, sent: bool) returns (ok: bool)
      requires Valid()
      modifies this, efi
      ensures Valid() && Abs() == ClientStep(old(Abs()), SwitchEvent.AllSwitches(knownType, op, hasBlock, sent))
      ensures ok <==> knownType && op.service != "" && sent
    {
      if !knownType || op.service == "" {
        return false;
      }
      ClientStepKeepsInv(Abs(), SwitchEvent.AllSwitches(knownType, op, hasBlock, sent));
      Request(op, hasBlock, sent);
      return sent;
    }

    /** handle_event_forward_entry_to_all_callback. */
    method HandleCallback(call: Call)
      requires call.param in infos
      modifies this
      ensures Abs() == Completed(old(Abs()), call)
    {
      var cb := infos[call.param];
      if cb.hasBlock {
        blockCalls := blockCalls + [BlockCall(call.param, call.result == Succeeded)];
      }
      infos := infos - {call.param};
      released := released + [call.param];
    }

    /** An event of the interface, with the completion handler it may call. */
    method Deliver(e: Event)
      requires Valid() && !e.Start? && Enabled(efi.Abs(), e)
      modifies this, efi
      ensures Valid() && Abs() == ClientStep(old(Abs()), Elsewhere(e))
    {
      HandlerSeesLiveRecord(Abs(), e);
      ClientStepKeepsInv(Abs(), Elsewhere(e));
      var n := |efi.calls|;
      efi.Deliver(e);
      if |efi.calls| > n {
        HandleCallback(efi.calls[n]);
      }
    }
  }
}
