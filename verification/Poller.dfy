/** The poll loop of one subscription as an object. */
module Poller {
  import opened Lex
  import M = PollerModel

  /** The greatest since-value of the rows, starting from the current one; unreadable rows are skipped. */
  method MaxSinceColumn(rows: seq<M.Row>, current: string) returns (max: string)
    ensures max == M.MaxSince(rows, current)
  {
    max := current;
    for i := 0 to |rows|
      invariant max == M.MaxSince(rows[..i], current)
    {
      assert rows[..i + 1][..i] == rows[..i];
      match rows[i].since {
        case Missing =>
        case Text(value) =>
          if Less(max, value) {
            max := value;
          }
        case Raw(raw) =>
          if Less(max, raw) {
            max := raw;
          }
      }
    }
    assert rows[..|rows|] == rows;
  }

  class Subscription {
    const widget: M.Widget
    var lastSeen: string
    var pushes: seq<M.Push>

    constructor (widget: M.Widget)
      ensures this.widget == widget && View() == M.Poller("", [])
    {
      this.widget, lastSeen, pushes := widget, "", [];
    }

    ghost function View(): M.Poller
      reads this
    {
      M.Poller(lastSeen, pushes)
    }

    /** `table` is what the widget's own query would return; `accepted` is the hub's verdict on a push. */
    method Poll(table: seq<M.Row>, failed: bool, accepted: bool)
      modifies this
      ensures View() == if failed then old(View()) else M.Poll(widget, old(View()), table, accepted)
    {
      var q := if widget.incremental && lastSeen != "" then M.After(lastSeen) else M.Whole;
      if failed {
        return;
      }
      var rows := M.Answer(widget, q, table);
      if widget.incremental {
        lastSeen := MaxSinceColumn(rows, lastSeen);
        if rows == [] {
          return;
        }
      }
      pushes := pushes + [M.Push(rows, accepted)];
    }
  }
}
