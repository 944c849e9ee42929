// The growable byte buffer of the encoder: an array with a length, doubled when it fills up.
module WasmBuffer {
  import opened Bytes
  import opened Leb128

  class WasmBuf {
    var data: array<byte>
    var len: nat
    // The bytes appended so far.
    ghost var contents: seq<byte>

    ghost predicate Valid()
      reads this, data
    {
      len <= data.Length && contents == data[..len]
    }

    constructor ()
      ensures Valid() && fresh(data)
      ensures contents == []
    {
      data := new byte[0];
      len := 0;
      contents := [];
    }

    // Room for `extra` more bytes: the capacity starts at 64 and doubles until it suffices.
    method Reserve(extra: nat)
      requires Valid()
      modifies this, data
      ensures Valid() && (data == old(data) || fresh(data))
      ensures contents == old(contents) && len == old(len)
      ensures len + extra <= data.Length
      ensures old(len + extra <= data.Length) ==> data == old(data)
    {
      if len + extra <= data.Length {
        return;
      }
      var cap := if data.Length != 0 then data.Length * 2 else 64;
      while cap < len + extra
        invariant cap > 0 && cap >= data.Length
        decreases len + extra - cap
      {
        cap := cap * 2;
      }
      var bigger := new byte[cap];
      forall i | 0 <= i < len {
        bigger[i] := data[i];
      }
      assert bigger[..len] == data[..len];
      data := bigger;
    }

    method Byte(v: byte)
      requires Valid()
      modifies this, data
      ensures Valid() && (data == old(data) || fresh(data))
      ensures contents == old(contents) + [v]
    {
      Reserve(1);
      data[len] := v;
      len := len + 1;
      contents := contents + [v];
    }

    method Bytes(p: seq<byte>)
      requires Valid()
      modifies this, data
      ensures Valid() && (data == old(data) || fresh(data))
      ensures contents == old(contents) + p
    {
      if |p| == 0 {
        return;
      }
      Reserve(|p|);
      forall i | 0 <= i < |p| {
        data[len + i] := p[i];
      }
      len := len + |p|;
      contents := contents + p;
    }

    // Unsigned LEB128: emit seven bits at a time until the value is exhausted.
    method U(value: nat)
      requires Valid()
      modifies this, data
      ensures Valid() && (data == old(data) || fresh(data))
      ensures contents == old(contents) + EncU(value)
    {
      hide EncU;
      var v := value;
      var more := true;
      ghost var done: seq<byte> := [];
      while more
        invariant Valid() && (data == old(data) || fresh(data))
        invariant contents == old(contents) + done
        invariant EncU(value) == if more then done + EncU(v) else done
        decreases more, v
      {
        var b := v % 128;
        var rest := v / 128;
        var out: byte := if rest != 0 then b + 128 else b;
        Byte(out);
        UnsignedStep(v);
        done := done + [out];
        v := rest;
        more := v != 0;
      }
    }

    // Signed LEB128: stop when the remaining bits repeat the sign bit of the last group.
    method I(value: int)
      requires Valid()
      modifies this, data
      ensures Valid() && (data == old(data) || fresh(data))
      ensures contents == old(contents) + EncS(value)
    {
      hide EncS;
      var v := value;
      var more := true;
      ghost var done: seq<byte> := [];
      while more
        invariant Valid() && (data == old(data) || fresh(data))
        invariant contents == old(contents) + done
        invariant EncS(value) == if more then done + EncS(v) else done
        decreases more, if v < 0 then -v else v
      {
        var b := v % 128;
        var rest := v / 128;
        more := !((rest == 0 && b < 64) || (rest == -1 && b >= 64));
        var out: byte := if more then b + 128 else b;
        Byte(out);
        SignedStep(v);
        done := done + [out];
        v := rest;
      }
    }

    // A length-prefixed byte string.
    method Name(s: seq<byte>)
      requires Valid()
      modifies this, data
      ensures Valid() && (data == old(data) || fresh(data))
      ensures contents == old(contents) + EncU(|s|) + s
    {
      U(|s|);
      Bytes(s);
    }
  }
}
