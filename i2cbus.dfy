/**
 * A fake two-wire (I2C) bus standing in for the transport and the sensor
 * behind it.  It holds the sensor's 256 registers, a queue of status words
 * that successive 2-byte reads of the status register return (the sensor's
 * "measuring" bit changing over time; once the queue is used up the register
 * contents answer), the register pointer that a plain write sets, and a log
 * of every transaction, so that the drivers' contracts can state which reads
 * and writes they issue and in which order.  Writes are recorded, not applied
 * to the registers.
 */
module I2CBus {
  import opened Bytes

  const StatusRegister := 0xF3

  /**
   * One bus transaction: a register read or write addressed by register
   * (`readfrom_mem`, `writeto_mem`), or a plain write or read (`write`,
   * `read` on the micro:bit), where the first byte written selects the
   * register that following reads start at.
   */
  datatype Op =
    | ReadMem(addr: int, reg: int, len: int)
    | WriteMem(addr: int, reg: int, data: seq<byte>)
    | Send(addr: int, data: seq<byte>)
    | Receive(addr: int, len: int)

  class FakeBus {
    var mem: seq<byte>
    var status: seq<int>
    var pointer: int
    var log: seq<Op>

    ghost predicate Valid()
      reads this
    {
      |mem| == 256 && forall i :: 0 <= i < |status| ==> 0 <= status[i] < 65536
    }

    constructor (registers: seq<byte>, statusWords: seq<int>)
      requires |registers| == 256
      requires forall i :: 0 <= i < |statusWords| ==> 0 <= statusWords[i] < 65536
      ensures Valid()
      ensures mem == registers && status == statusWords && pointer == -1 && log == []
    {
      mem, status, pointer, log := registers, statusWords, -1, [];
    }

    /** The status words that successive 2-byte reads of the status register return. */
    function StatusStream(): (s: seq<int>)
      requires Valid()
      reads this
      ensures |s| == |status| + 1 && s[..|status|] == status
      ensures forall i :: 0 <= i < |s| ==> 0 <= s[i] < 65536
    {
      status + [U16(mem[StatusRegister], mem[StatusRegister + 1])]
    }

    /** What a read of len registers starting at reg returns now. */
    function Response(reg: int, len: nat): (data: seq<byte>)
      requires Valid() && 0 <= reg && reg + len <= 256
      reads this
      ensures |data| == len
      ensures reg == StatusRegister && len == 2 ==> U16(data[0], data[1]) == StatusStream()[0]
      ensures reg != StatusRegister || len != 2 ==> data == mem[reg..reg + len]
    {
      if reg == StatusRegister && len == 2 && status != [] then WordBytes(status[0])
      else mem[reg..reg + len]
    }

    /** The status queue after such a read: a status read consumes one word. */
    function StatusAfter(reg: int, len: nat): (s: seq<int>)
      reads this
      ensures reg == StatusRegister && len == 2 && status != [] ==> s == status[1..]
      ensures reg != StatusRegister || len != 2 || status == [] ==> s == status
    {
      if reg == StatusRegister && len == 2 && status != [] then status[1..] else status
    }

    /** `readfrom_mem(addr, reg, len)` */
    method ReadFromMem(addr: int, reg: int, len: nat) returns (data: seq<byte>)
      requires Valid() && 0 <= reg && reg + len <= 256
      modifies this
      ensures Valid() && mem == old(mem) && pointer == old(pointer)
      ensures data == old(Response(reg, len)) && status == old(StatusAfter(reg, len))
      ensures log == old(log) + [ReadMem(addr, reg, len)]
    {
      data := Response(reg, len);
      status := StatusAfter(reg, len);
      log := log + [ReadMem(addr, reg, len)];
    }

    /** `readfrom_mem_into(addr, reg, buf)`: a read that fills a caller's buffer. */
    method ReadFromMemInto(addr: int, reg: int, buf: array<byte>)
      requires Valid() && 0 <= reg && reg + buf.Length <= 256
      modifies this, buf
      ensures Valid() && mem == old(mem) && pointer == old(pointer)
      ensures buf[..] == old(Response(reg, buf.Length)) && status == old(StatusAfter(reg, buf.Length))
      ensures log == old(log) + [ReadMem(addr, reg, buf.Length)]
    {
      var data := ReadFromMem(addr, reg, buf.Length);
      var i := 0;
      while i < buf.Length
        invariant 0 <= i <= buf.Length
        invariant buf[..i] == data[..i]
        modifies buf
      {
        buf[i] := data[i];
        i := i + 1;
      }
    }

    /** `writeto_mem(addr, reg, data)` */
    method WriteToMem(addr: int, reg: int, data: seq<byte>)
      requires Valid()
      modifies this
      ensures Valid() && mem == old(mem) && status == old(status) && pointer == old(pointer)
      ensures log == old(log) + [WriteMem(addr, reg, data)]
    {
      log := log + [WriteMem(addr, reg, data)];
    }

    /** The micro:bit `write(addr, data)`: the first byte selects the register. */
    method Write(addr: int, data: seq<byte>)
      requires Valid()
      modifies this
      ensures Valid() && mem == old(mem) && status == old(status)
      ensures pointer == if data == [] then old(pointer) else data[0]
      ensures log == old(log) + [Send(addr, data)]
    {
      if data != [] {
        pointer := data[0];
      }
      log := log + [Send(addr, data)];
    }

    /** The micro:bit `read(addr, len)`: len registers from the selected one. */
    method Read(addr: int, len: nat) returns (data: seq<byte>)
      requires Valid() && 0 <= pointer && pointer + len <= 256
      modifies this
      ensures Valid() && mem == old(mem) && pointer == old(pointer)
      ensures data == old(Response(pointer, len)) && status == old(StatusAfter(pointer, len))
      ensures log == old(log) + [Receive(addr, len)]
    {
      data := Response(pointer, len);
      status := StatusAfter(pointer, len);
      log := log + [Receive(addr, len)];
    }
  }
}
