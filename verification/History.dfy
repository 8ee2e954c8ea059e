/** The line history, which outlives each line. */
module History {
  import opened Utf8
  import opened Wrappers

  /** Nothing is being viewed, or the entry at an index is; the index is the
      number of entries just after viewing began. */
  datatype Past = Past(entries: seq<Bytes>, viewing: Option<nat>, backup: Bytes) {
    predicate Valid() {
      viewing.Some? ==> viewing.value <= |entries|
    }

    predicate AllClean() {
      Clean(backup) && forall i :: 0 <= i < |entries| ==> Clean(entries[i])
    }

    function EndViewing(): Past {
      this.(viewing := None, backup := [])
    }

    /** A finished line is remembered unless it repeats the last one; an empty
        line leaves everything, the viewing state too, as it was. */
    function Add(line: Bytes): Past {
      if line == [] then this
      else if entries == [] || entries[|entries| - 1] != line then this.(entries := entries + [line]).EndViewing()
      else EndViewing()
    }

    function BeginViewing(line: Bytes): Past {
      this.(viewing := Some(|entries|), backup := line)
    }

    function Prev(): (r: (Past, Option<Bytes>))
      requires Valid()
      ensures r.0.Valid()
    {
      if entries == [] || viewing.None? then (this, None)
      else
        var i := if viewing.value > 0 then viewing.value - 1 else 0;
        (this.(viewing := Some(i)), Some(entries[i]))
    }

    function Next(): (r: (Past, Option<Bytes>))
      requires Valid()
      ensures r.0.Valid()
    {
      if entries == [] || viewing.None? then (this, None)
      else if viewing.value + 1 >= |entries| then (EndViewing(), Some(backup))
      else (this.(viewing := Some(viewing.value + 1)), Some(entries[viewing.value + 1]))
    }

    /** The up key: begins viewing if need be. */
    function Up(line: Bytes): (r: (Past, Option<Bytes>))
      requires Valid()
      ensures r.0.Valid()
    {
      (if viewing.None? then BeginViewing(line) else this).Prev()
    }

    /** The down key: does nothing unless viewing. */
    function Down(): (r: (Past, Option<Bytes>))
      requires Valid()
      ensures r.0.Valid()
    {
      if viewing.Some? then Next() else (this, None)
    }
  }

  class HistoryBuffer {
    var entries: seq<Bytes>
    var viewing: Option<nat>
    var backup: Bytes

    constructor ()
      ensures State() == Past([], None, [])
    {
      entries, viewing, backup := [], None, [];
    }

    function State(): Past
      reads this
    {
      Past(entries, viewing, backup)
    }

    method Add(line: Bytes)
      modifies this
      ensures State() == old(State()).Add(line)
    {
      if line == [] {
        return;
      }
      if entries == [] || entries[|entries| - 1] != line {
        entries := entries + [line];
      }
      EndViewing();
    }

    method EndViewing()
      modifies this
      ensures State() == old(State()).EndViewing()
    {
      viewing := None;
      backup := [];
    }

    method BeginViewing(line: Bytes)
      modifies this
      ensures State() == old(State()).BeginViewing(line)
    {
      backup := line;
      viewing := Some(|entries|);
    }

    method Prev() returns (line: Option<Bytes>)
      requires State().Valid()
      modifies this`viewing
      ensures (State(), line) == old(State()).Prev()
    {
      if entries == [] || viewing.None? {
        return None;
      }
      if viewing.value > 0 {
        viewing := Some(viewing.value - 1);
      }
      return Some(entries[viewing.value]);
    }

    method Next() returns (line: Option<Bytes>)
      requires State().Valid()
      modifies this
      ensures (State(), line) == old(State()).Next()
    {
      if entries == [] || viewing.None? {
        return None;
      }
      viewing := Some(viewing.value + 1);
      if viewing.value >= |entries| {
        line := Some(backup);
        EndViewing();
      } else {
        line := Some(entries[viewing.value]);
      }
    }
  }

  /** What is on the line after pressing up, or down, some number of times. */
  function Ups(p: Past, line: Bytes, n: nat): (r: (Past, Bytes))
    requires p.Valid()
    ensures r.0.Valid()
  {
    if n == 0 then (p, line)
    else
      var (q, l) := Ups(p, line, n - 1);
      var (q', l') := q.Up(l);
      (q', if l'.Some? then l'.value else l)
  }

  function Downs(p: Past, line: Bytes, n: nat): (r: (Past, Bytes))
    requires p.Valid()
    ensures r.0.Valid()
  {
    if n == 0 then (p, line)
    else
      var (q, l) := Downs(p, line, n - 1);
      var (q', l') := q.Down();
      (q', if l'.Some? then l'.value else l)
  }

  function Min(a: nat, b: nat): nat {
    if a < b then a else b
  }

  lemma {:induction false} AfterUps(p: Past, line: Bytes, up: nat)
    requires p.Valid() && p.viewing.None? && p.entries != [] && up > 0
    ensures var i := |p.entries| - Min(up, |p.entries|);
      Ups(p, line, up) == (p.(viewing := Some(i), backup := line), p.entries[i])
  {
    if up > 1 {
      AfterUps(p, line, up - 1);
    }
  }

  lemma {:induction false} AfterDowns(p: Past, line: Bytes, down: nat)
    requires p.Valid() && p.viewing.Some? && p.viewing.value < |p.entries| && line == p.entries[p.viewing.value]
    ensures var i := p.viewing.value + down;
      Downs(p, line, down) ==
        if i < |p.entries| then (p.(viewing := Some(i)), p.entries[i]) else (p.EndViewing(), p.backup)
  {
    if down > 0 {
      AfterDowns(p, line, down - 1);
    }
  }

  /** Browsing up and then down again brings the unfinished line back exactly
      when down is pressed as often as up counted: presses beyond the oldest
      entry do not count. Until then an entry of the history shows. */
  lemma BrowsingReturns(p: Past, line: Bytes, up: nat, down: nat)
    requires p.Valid() && p.viewing.None? && p.entries != [] && up > 0
    ensures var (q, l) := Ups(p, line, up); var (r, m) := Downs(q, l, down);
      var counted := Min(up, |p.entries|);
      r.entries == p.entries &&
      (r.viewing.None? <==> down >= counted) &&
      (m == if down >= counted then line else p.entries[|p.entries| - counted + down])
  {
    AfterUps(p, line, up);
    var (q, l) := Ups(p, line, up);
    AfterDowns(q, l, down);
  }

  /** Finishing a line ends viewing exactly when the line is not empty. */
  lemma ViewingSurvivesEmptyLines(p: Past, line: Bytes)
    ensures p.Add(line).viewing.Some? <==> p.viewing.Some? && line == []
  {
  }

  lemma CleanPast(p: Past, line: Bytes)
    requires p.Valid() && p.AllClean() && Clean(line)
    ensures p.Add(line).AllClean()
    ensures var (q, l) := p.Up(line); q.AllClean() && (l.Some? ==> Clean(l.value))
    ensures var (q, l) := p.Down(); q.AllClean() && (l.Some? ==> Clean(l.value))
  {
    assert Clean([]);
  }
}
