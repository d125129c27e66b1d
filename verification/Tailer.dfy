/** The file tailer, changing its offset, inode and pending record, and its checkpoint file, in place. */
module Tailer {
  import opened Wrappers
  import opened TailModel

  class CheckpointFile {
    var text: Option<string>

    constructor ()
      ensures text == None
    {
      text := None;
    }
  }

  class FileTailer {
    const checkpoint: CheckpointFile
    const multilineStart: Start
    var offset: nat
    var inode: Option<nat>
    var pendingRecord: Option<Line>

    function View(): TailModel.Tailer
      reads this, checkpoint
    {
      TailModel.Tailer(offset, inode, pendingRecord, checkpoint.text)
    }

    constructor (checkpoint: CheckpointFile, multilineStart: Start)
      ensures this.checkpoint == checkpoint && this.multilineStart == multilineStart
      ensures View() == Open(checkpoint.text)
    {
      this.checkpoint, this.multilineStart := checkpoint, multilineStart;
      var (o, i) := ReadCheckpoint(checkpoint.text);
      offset, inode, pendingRecord := o, i, None;
    }

    /** `attempt` is what opening the file gives; an error other than a missing file is passed on. */
    method Poll(attempt: Attempt) returns (r: Result<seq<Line>, IoError>)
      modifies this, checkpoint
      ensures attempt.Err? ==> r == Err(attempt.error) && View() == old(View())
      ensures attempt.Ok? ==> r.Ok? && (View(), r.value) == TailModel.Poll(multilineStart, old(View()), attempt.value)
    {
      hide Group, LineEnd, Lines, Consumed, TailModel.PushLine, PrintCheckpoint;
      if attempt.Err? {
        return Err(attempt.error);
      }
      var records: seq<Line> := [];
      if attempt.value.None? {
        return Ok(records);
      }
      var f := attempt.value.value;
      if inode.Some? {
        if (f.inode.Some? && f.inode != inode) || |f.content| < offset {
          offset, pendingRecord := 0, None;
        }
      }
      inode := f.inode;
      ghost var from, before, done := offset, pendingRecord, [];
      NothingGrouped(multilineStart, before);
      while true
        invariant Lines(f.content, from) == done + Lines(f.content, offset)
        invariant Consumed(f.content, from) == Consumed(f.content, offset)
        invariant (pendingRecord, records) == Group(multilineStart, before, done)
        invariant inode == f.inode && checkpoint.text == old(checkpoint.text)
        decreases |f.content| - offset
      {
        var end := LineEnd(f.content, offset);
        if end >= |f.content| {
          break; // a line without its newline is left for a later poll
        }
        FirstLine(f.content, offset);
        var line := f.content[offset..end];
        offset := end + 1;
        var completed := PushLine(line);
        GroupOneMore(multilineStart, before, done, line);
        records := records + completed;
        done := done + [line];
      }
      NoLine(f.content, offset);
      assert done == Lines(f.content, from);
      checkpoint.text := Some(PrintCheckpoint(offset, inode));
      return Ok(records);
    }

    method PushLine(line: Line) returns (records: seq<Line>)
      modifies this`pendingRecord
      ensures (pendingRecord, records) == TailModel.PushLine(multilineStart, old(pendingRecord), line)
    {
      if multilineStart.None? {
        return [line];
      }
      records := [];
      if (multilineStart.value)(line) {
        if pendingRecord.Some? {
          records := [pendingRecord.value];
        }
        pendingRecord := Some(line);
      } else if pendingRecord.Some? {
        pendingRecord := Some(pendingRecord.value + [NEWLINE] + line);
      } else {
        records := [line];
      }
    }

    method FlushPending() returns (record: Option<Line>)
      modifies this`pendingRecord
      ensures (View(), record) == TailModel.FlushPending(old(View()))
    {
      record := pendingRecord;
      pendingRecord := None;
    }
  }

  /** The collector task around a tailer. */
  class Collector {
    const tailer: FileTailer
    var idlePolls: nat

    constructor (tailer: FileTailer)
      ensures this.tailer == tailer && idlePolls == 0
    {
      this.tailer, idlePolls := tailer, 0;
    }

    method Round(attempt: Attempt) returns (sent: seq<Line>)
      requires this.idlePolls < IDLE_FLUSH_AFTER
      modifies this, tailer, tailer.checkpoint
      ensures (tailer.View(), idlePolls, sent)
           == TailModel.Round(tailer.multilineStart, old(tailer.View()), old(idlePolls), attempt)
      ensures idlePolls < IDLE_FLUSH_AFTER
    {
      sent := [];
      var polled := tailer.Poll(attempt);
      match polled {
        case Err(_) =>
        case Ok(lines) =>
          if lines == [] {
            idlePolls := idlePolls + 1;
            if idlePolls >= IDLE_FLUSH_AFTER {
              var record := tailer.FlushPending();
              if record.Some? {
                sent := [record.value];
              }
              idlePolls := 0;
            }
          } else {
            idlePolls := 0;
            sent := lines;
          }
      }
    }
  }

  lemma NothingGrouped(start: Start, pending: Option<Line>)
    ensures Group(start, pending, []) == (pending, [])
  {}

  lemma GroupOneMore(start: Start, pending: Option<Line>, lines: seq<Line>, line: Line)
    ensures var (p, records) := Group(start, pending, lines);
            var (p', more) := TailModel.PushLine(start, p, line);
            Group(start, pending, lines + [line]) == (p', records + more)
  {
    assert (lines + [line])[..|lines|] == lines;
  }
}
