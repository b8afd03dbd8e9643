/** The sum-read and sum-write branches of the test server, over its variable store. */
module AdvancedHandlers {
  import opened Wrappers
  import opened Bytes

  type u32 = x: int | 0 <= x < 0x1_0000_0000

  type Address = (u32, u32)

  type Store = map<Address, seq<byte>>

  /** One entry of a sum request. */
  datatype Request = Request(group: u32, offs: u32, size: u32) {
    function Address(): Address { (group, offs) }
  }

  /** `struct.unpack("<I", b[i:i + 4])[0]`. */
  function Word(b: seq<byte>, i: nat): Result<u32> {
    if i + 4 <= |b| then
      LEOfUnLE(b[i..i + 4]);
      assert Pow256(4) == 0x1_0000_0000 by { assert Pow256(2) == 65536; }
      Ok(UnLE(b[i..i + 4]))
    else Err(StructError)
  }

  /** A word is the little-endian number in its four bytes, and raises when they are not all there. */
  lemma WordOf(b: seq<byte>, i: nat)
    ensures i + 4 > |b| ==> Word(b, i) == Err(StructError)
    ensures i + 4 <= |b| ==>
              Word(b, i) ==
              Ok(b[i] as int + 0x100 * (b[i + 1] as int) + 0x1_0000 * (b[i + 2] as int) + 0x100_0000 * (b[i + 3] as int))
  {
    if i + 4 <= |b| {
      var w := b[i..i + 4];
      assert UnLE(w[4..]) == 0 && UnLE(w[3..]) == w[3] && w[1..][1..] == w[2..] && w[2..][1..] == w[3..] && w[3..][1..] == w[4..];
      assert UnLE(w[2..]) == w[2] + 256 * UnLE(w[3..]) && UnLE(w[1..]) == w[1] + 256 * UnLE(w[2..]);
    }
  }

  /** The requests in the twelve-byte groups from `i` on. */
  function Requests(b: seq<byte>, i: nat, n: nat): (r: Result<seq<Request>>)
    ensures r.Ok? ==> |r.value| == n
    decreases n
  {
    if n == 0 then Ok([]) else
    var group :- Word(b, i);
    var offs :- Word(b, i + 4);
    var size :- Word(b, i + 8);
    var rest :- Requests(b, i + 12, n - 1);
    Ok([Request(group, offs, size)] + rest)
  }

  /** The store after writing the requests in order, and the exception of the first unknown address. */
  function Written(data: Store, reqs: seq<Request>, payload: seq<byte>): (Store, Option<Error>)
    decreases |reqs|
  {
    if reqs == [] then (data, None)
    else if reqs[0].Address() !in data then (data, Some(KeyError))
    else Written(data[reqs[0].Address() := Take(payload, reqs[0].size)], reqs[1..], Drop(payload, reqs[0].size))
  }

  /** The stored values of the requests, one after the other. */
  function Stored(data: Store, reqs: seq<Request>): Result<seq<byte>> {
    if reqs == [] then Ok([])
    else if reqs[0].Address() !in data then Err(KeyError)
    else
      var rest :- Stored(data, reqs[1..]);
      Ok(data[reqs[0].Address()] + rest)
  }

  function HandledWrite(data: Store, numRequests: nat, writeData: seq<byte>): (Store, Result<seq<byte>>) {
    match Requests(writeData, 0, numRequests)
    case Err(e) => (data, Err(e))
    case Ok(reqs) =>
      var (after, error) := Written(data, reqs, Drop(writeData, 12 * numRequests));
      (after, if error.Some? then Err(error.value) else Ok(Zeros(4 * numRequests)))
  }

  function HandledRead(data: Store, numRequests: nat, writeData: seq<byte>): Result<seq<byte>> {
    var reqs :- Requests(writeData, 0, numRequests);
    var values :- Stored(data, reqs);
    Ok(Zeros(4 * numRequests) + values)
  }

  /** At the first unknown address the writes before it are done and KeyError is raised. */
  lemma {:induction false} StopsAtUnknown(data: Store, reqs: seq<Request>, payload: seq<byte>, k: nat)
    requires k < |reqs| && reqs[k].Address() !in data && forall j | 0 <= j < k :: reqs[j].Address() in data
    ensures Written(data, reqs, payload) == (Written(data, reqs[..k], payload).0, Some(KeyError))
    ensures Written(data, reqs[..k], payload).1 == None && Stored(data, reqs) == Err(KeyError)
    decreases |reqs|
  {
    if k > 0 {
      var after := data[reqs[0].Address() := Take(payload, reqs[0].size)];
      assert reqs[..k][0] == reqs[0] && reqs[..k][1..] == reqs[1..][..k - 1];
      assert forall j | 0 <= j < |reqs| - 1 :: reqs[1..][j] == reqs[j + 1];
      StopsAtUnknown(after, reqs[1..], Drop(payload, reqs[0].size), k - 1);
      StoredStops(data, reqs, k);
    }
  }

  lemma {:induction false} StoredStops(data: Store, reqs: seq<Request>, k: nat)
    requires k < |reqs| && reqs[k].Address() !in data && forall j | 0 <= j < k :: reqs[j].Address() in data
    ensures Stored(data, reqs) == Err(KeyError)
    decreases |reqs|
  {
    if k > 0 {
      assert forall j | 0 <= j < |reqs| - 1 :: reqs[1..][j] == reqs[j + 1];
      StoredStops(data, reqs[1..], k - 1);
    }
  }

  /** What a list of requests is once the rest of it has been parsed. */
  function Ahead(done: seq<Request>, rest: Result<seq<Request>>): Result<seq<Request>> {
    match rest case Ok(r) => Ok(done + r) case Err(e) => Err(e)
  }

  lemma AheadStep(done: seq<Request>, r: Request, rest: Result<seq<Request>>)
    ensures Ahead(done, Ahead([r], rest)) == Ahead(done + [r], rest)
  {
    assert rest.Ok? ==> done + ([r] + rest.value) == done + [r] + rest.value;
  }

  lemma AheadNothing(rest: Result<seq<Request>>)
    ensures Ahead([], rest) == rest
  {
    assert rest.Ok? ==> [] + rest.value == rest.value;
  }

  class AdvancedHandler {
    /** The value of every variable, by index group and offset. */
    var data: Store

    /** A server with these variables added. */
    constructor (variables: Store)
      ensures data == variables
    {
      data := variables;
    }

    method ParseRequests(writeData: seq<byte>, numRequests: nat) returns (r: Result<seq<Request>>)
      ensures r == Requests(writeData, 0, numRequests)
    {
      var rqList: seq<Request> := [];
      AheadNothing(Requests(writeData, 0, numRequests));
      for k := 0 to numRequests
        invariant Requests(writeData, 0, numRequests) == Ahead(rqList, Requests(writeData, 12 * k, numRequests - k))
      {
        var i := 12 * k;
        var group, offs, size := Word(writeData, i), Word(writeData, i + 4), Word(writeData, i + 8);
        if group.Err? || offs.Err? || size.Err? {
          return Err(StructError);
        }
        AheadStep(rqList, Request(group.value, offs.value, size.value), Requests(writeData, i + 12, numRequests - k - 1));
        rqList := rqList + [Request(group.value, offs.value, size.value)];
      }
      assert rqList + [] == rqList;
      r := Ok(rqList);
    }

    /** The ADSIGRP_SUMUP_WRITE branch: an unknown address raises with the earlier writes done. */
    method SumUpWrite(numRequests: nat, writeData: seq<byte>) returns (r: Result<seq<byte>>)
      modifies this
      ensures (data, r) == HandledWrite(old(data), numRequests, writeData)
    {
      hide Requests;
      var rqList := ParseRequests(writeData, numRequests);
      if rqList.Err? {
        return Err(rqList.error);
      }
      var reqs := rqList.value;
      var payload := Drop(writeData, 12 * numRequests);
      var offset: nat := 0;
      assert reqs[0..] == reqs && Drop(payload, 0) == payload;
      for k := 0 to numRequests
        invariant Written(old(data), reqs, payload) == Written(data, reqs[k..], Drop(payload, offset))
      {
        var address := reqs[k].Address();
        assert reqs[k..][1..] == reqs[k + 1..];
        if address !in data {
          return Err(KeyError);
        }
        DropDrop(payload, offset, reqs[k].size);
        data := data[address := Slice(payload, offset, reqs[k].size)];
        offset := offset + reqs[k].size;
      }
      r := Ok(Zeros(4 * numRequests));
    }

    /** The ADSIGRP_SUMUP_READ branch: every error word is zero, and each value has its stored length. */
    method SumUpRead(numRequests: nat, writeData: seq<byte>) returns (r: Result<seq<byte>>)
      ensures r == HandledRead(data, numRequests, writeData)
    {
      var rqList := ParseRequests(writeData, numRequests);
      if rqList.Err? {
        return Err(rqList.error);
      }
      var reqs := rqList.value;
      var readData := Zeros(4 * numRequests);
      assert reqs[0..] == reqs;
      for k := 0 to numRequests
        invariant HandledRead(data, numRequests, writeData) ==
                  match Stored(data, reqs[k..]) case Ok(v) => Ok(readData + v) case Err(e) => Err(e)
      {
        var address := reqs[k].Address();
        assert reqs[k..][1..] == reqs[k + 1..];
        if address !in data {
          return Err(KeyError);
        }
        ghost var rest := Stored(data, reqs[k + 1..]);
        assert rest.Ok? ==> readData + (data[address] + rest.value) == readData + data[address] + rest.value;
        readData := readData + data[address];
      }
      assert readData + [] == readData;
      r := Ok(readData);
    }
  }
}
