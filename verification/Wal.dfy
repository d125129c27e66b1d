/** The write-ahead log as the agent holds it: two files and two offsets, changed in place. */
module Wal {
  import opened Wrappers
  import opened Framing
  import Decimal
  import M = WalModel
  import opened WalModel

  /** The directory of the log: what a crash leaves behind. */
  class Disk {
    var log: seq<byte>
    var ack: AckFile

    constructor ()
      ensures log == [] && ack == None
    {
      log, ack := [], None;
    }
  }

  class Wal {
    const disk: Disk
    var writeOffset: nat
    var ackOffset: nat

    function View(): M.State
      reads this, disk
    {
      M.State(disk.log, disk.ack, writeOffset, ackOffset)
    }

    constructor (disk: Disk)
      ensures this.disk == disk && View() == M.Open(disk.log, disk.ack)
    {
      this.disk := disk;
      ackOffset := M.ReadAckOffset(disk.ack);
      writeOffset := |disk.log|;
    }

    method Append(data: Record) returns (offset: nat)
      modifies this`writeOffset, disk`log
      ensures View() == M.Append(old(View()), data)
      ensures offset == writeOffset
    {
      disk.log := disk.log + ToLe32(|data| % TWO_TO_THE_32);
      disk.log := disk.log + data;
      assert disk.log == old(disk.log) + Frame(data);
      writeOffset := writeOffset + (4 + |data|);
      return writeOffset;
    }

    method Pending() returns (r: Result<seq<WalEntry>, DecodeError>)
      ensures r == M.Pending(View())
    {
      hide M.Entries, Frames, LenAt;
      var entries: seq<WalEntry> := [];
      ghost var read: seq<Record> := [];
      var cursor := ackOffset;
      M.NothingStored(ackOffset);
      PrependNil(Decode(disk.log, ackOffset));
      while cursor + 4 <= |disk.log|
        invariant cursor == ackOffset + |Frames(read)|
        invariant entries == M.Entries(ackOffset, read)
        invariant Decode(disk.log, ackOffset) == Prepend(read, Decode(disk.log, cursor))
      {
        var len := LenAt(disk.log, cursor);
        if cursor + 4 + len > |disk.log| {
          return Err(Truncated);
        }
        var data := disk.log[cursor + 4..cursor + 4 + len];
        PrependAssoc(read, [data], Decode(disk.log, cursor + 4 + len));
        M.EntriesSnoc(ackOffset, read, data);
        FramesSnoc(read, data);
        cursor := cursor + (4 + len);
        entries := entries + [WalEntry(cursor, data)];
        read := read + [data];
      }
      assert read + [] == read;
      return Ok(entries);
    }

    method Ack(offset: nat)
      modifies this`ackOffset, disk`ack
      ensures View() == M.Ack(old(View()), offset)
    {
      disk.ack := Some(Decimal.Print(offset));
      ackOffset := offset;
    }

    method PendingBytes() returns (n: nat)
      ensures n == M.PendingBytes(View())
    {
      n := if ackOffset <= writeOffset then writeOffset - ackOffset else 0;
    }

    method Compact() returns (ok: bool)
      modifies this, disk
      ensures View() == M.Compact(old(View()))
      ensures ok == M.Pending(old(View())).Ok?
    {
      var remaining := Pending();
      if remaining.Err? {
        return false;
      }
      var entries := remaining.value;
      var tmp: seq<byte> := [];
      var i := 0;
      while i < |entries|
        invariant i <= |entries|
        invariant tmp == Frames(M.Data(entries[..i]))
      {
        FramesSnoc(M.Data(entries[..i]), entries[i].data);
        assert M.Data(entries[..i + 1]) == M.Data(entries[..i]) + [entries[i].data];
        tmp := tmp + ToLe32(|entries[i].data| % TWO_TO_THE_32);
        tmp := tmp + entries[i].data;
        i := i + 1;
      }
      assert entries[..i] == entries;
      disk.log := tmp;
      writeOffset := |disk.log|;
      ackOffset := 0;
      disk.ack := Some(Decimal.Print(0));
      return true;
    }
  }
}
