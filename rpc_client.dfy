/**
 * Bookkeeping of the RPC client: the sequence counter, the table of pending
 * calls, the closing and shutdown flags, and option defaulting. The codec,
 * the connection and the goroutines that send and receive are outside the
 * model; what they hand back (the codec's close result, the error that ends
 * the receive loop) enters as parameters.
 */
module RpcClient {
  import Wrappers

  /** Magic number every client option carries. */
  const MagicNumber: int := 0x3bef5c

  /** Default codec type. */
  const JsonType: string := "application/json"

  datatype RpcError =
    | ErrShutdown                  // "connection is shut down"
    | CodecError(message: string)  // an error reported by the codec or the connection
    | TooManyOptions(count: nat)   // "number of options: %d is more than 1"

  /** Options a client is dialled with. */
  class Option {
    var magicNumber: int
    var codeType: string

    /** The package's default option. */
    constructor Default()
      ensures magicNumber == MagicNumber && codeType == JsonType
    {
      magicNumber := MagicNumber;
      codeType := JsonType;
    }
  }

  /**
   * Picks the options to dial with. With no option, or a nil first one, it is
   * the default option object itself; with more than one it is an error;
   * otherwise the given option, updated in place to carry the default magic
   * number and, when its codec type is empty, the default codec type.
   */
  method ParseOptions(opts: seq<Option?>, defaultOption: Option) returns (r: Wrappers.Result<Option, RpcError>)
    modifies if |opts| == 1 then opts else []
    ensures |opts| == 0 || opts[0] == null ==> r == Wrappers.Ok(defaultOption)
    ensures |opts| > 1 && opts[0] != null ==> r == Wrappers.Err(TooManyOptions(|opts|))
    ensures |opts| == 1 && opts[0] != null ==>
              && r == Wrappers.Ok(opts[0])
              && opts[0].magicNumber == old(defaultOption.magicNumber)
              && opts[0].codeType == (if old(opts[0].codeType) == "" then old(defaultOption.codeType)
                                      else old(opts[0].codeType))
  {
    if |opts| == 0 || opts[0] == null {
      return Wrappers.Ok(defaultOption);
    }
    if |opts| != 1 {
      return Wrappers.Err(TooManyOptions(|opts|));
    }
    var opt := opts[0];
    opt.magicNumber := defaultOption.magicNumber;
    if opt.codeType == "" {
      opt.codeType := defaultOption.codeType;
    }
    return Wrappers.Ok(opt);
  }

  /** An RPC in flight. */
  class Call {
    var seqNum: nat
    var serviceMethod: string
    var error: Wrappers.Option<RpcError>

    constructor (serviceMethod: string)
      ensures seqNum == 0 && this.serviceMethod == serviceMethod && error == Wrappers.None
    {
      seqNum := 0;
      this.serviceMethod := serviceMethod;
      error := Wrappers.None;
    }
  }

  class Client {
    var seqNum: nat
    var pending: map<nat, Call>
    var closing: bool
    var shutdown: bool
    /** Sequence numbers handed out so far, in order. */
    ghost var issued: seq<nat>

    /**
     * The counter starts at 1 and is above every number handed out; numbers
     * are handed out in strictly increasing order; every pending call sits
     * under a number that was handed out.
     */
    ghost predicate Valid()
      reads this
    {
      && 1 <= seqNum
      && (forall i :: 0 <= i < |issued| ==> 1 <= issued[i] < seqNum)
      && (forall i, j :: 0 <= i < j < |issued| ==> issued[i] < issued[j])
      && (forall k :: k in pending ==> k in issued)
    }

    /** A client over a fresh codec: counter 1, nothing pending, open. */
    constructor ()
      ensures Valid()
      ensures seqNum == 1 && pending == map[] && !closing && !shutdown && issued == []
    {
      seqNum := 1;
      pending := map[];
      closing := false;
      shutdown := false;
      issued := [];
    }

    /** New calls are accepted only while neither closing nor shut down. */
    predicate Accepting()
      reads this
    {
      !closing && !shutdown
    }

    /** Closes once: the first call marks the client closing and reports the codec's close result. */
    method Close(codecClose: Wrappers.Option<RpcError>) returns (err: Wrappers.Option<RpcError>)
      modifies this`closing
      ensures old(closing) ==> err == Wrappers.Some(ErrShutdown) && closing
      ensures !old(closing) ==> err == codecClose && closing
    {
      if closing {
        return Wrappers.Some(ErrShutdown);
      }
      closing := true;
      return codecClose;
    }

    /** Whether the client still accepts calls. */
    method IsAvailable() returns (available: bool)
      ensures available <==> Accepting()
      ensures available <==> !shutdown && !closing
    {
      return !shutdown && !closing;
    }

    /**
     * Registers a call under the next sequence number, or fails with
     * ErrShutdown, changing nothing, once the client is closing or shut down.
     */
    method RegisterCall(call: Call) returns (r: Wrappers.Result<nat, RpcError>)
      requires Valid()
      modifies this, call`seqNum
      ensures Valid()
      ensures closing == old(closing) && shutdown == old(shutdown)
      ensures !old(Accepting()) ==>
                && r == Wrappers.Err(ErrShutdown)
                && seqNum == old(seqNum) && pending == old(pending) && issued == old(issued) && call.seqNum == old(call.seqNum)
      ensures old(Accepting()) ==>
                && r == Wrappers.Ok(old(seqNum))
                && call.seqNum == old(seqNum)
                && old(seqNum) !in old(pending)
                && pending == old(pending)[old(seqNum) := call]
                && seqNum == old(seqNum) + 1
                && issued == old(issued) + [old(seqNum)]
    {
      if closing || shutdown {
        return Wrappers.Err(ErrShutdown);
      }
      call.seqNum := seqNum;
      pending := pending[call.seqNum := call];
      issued := issued + [seqNum];
      seqNum := seqNum + 1;
      return Wrappers.Ok(call.seqNum);
    }

    /** Takes the call registered under `s` out of the table, if any. */
    method RemoveCall(s: nat) returns (call: Call?)
      requires Valid()
      modifies this`pending
      ensures Valid()
      ensures call == (if s in old(pending) then old(pending)[s] else null)
      ensures s !in pending
      ensures forall k :: k in old(pending) && k != s ==> k in pending && pending[k] == old(pending)[k]
      ensures pending.Keys == old(pending).Keys - {s}
    {
      call := if s in pending then pending[s] else null;
      pending := pending - {s};
    }

    /** Shuts the client down and hands `err` to every pending call; the table itself is kept. */
    method TerminateCalls(err: RpcError)
      requires Valid()
      modifies this`shutdown, pending.Values`error
      ensures Valid()
      ensures shutdown && !Accepting()
      ensures pending == old(pending)
      ensures forall k :: k in pending ==> pending[k].error == Wrappers.Some(err)
      ensures forall k :: k in pending ==>
                pending[k].seqNum == old(pending[k].seqNum) && pending[k].serviceMethod == old(pending[k].serviceMethod)
    {
      shutdown := true;
      var remaining := pending.Keys;
      while remaining != {}
        invariant shutdown && remaining <= pending.Keys
        invariant forall k :: k in pending && k !in remaining ==> pending[k].error == Wrappers.Some(err)
        decreases remaining
      {
        var k :| k in remaining;
        pending[k].error := Wrappers.Some(err);
        remaining := remaining - {k};
      }
    }
  }
}
