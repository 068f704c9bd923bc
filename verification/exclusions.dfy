/** The table of ranges that are not to be scanned as roots. */
module Exclusions {
  import opened Wrappers

  datatype Range = Range(start: nat, end: nat) {
    predicate Has(p: nat) {
      start <= p < end
    }
  }

  /** Nonempty ranges in ascending order. */
  predicate Ordered(rs: seq<Range>) {
    && (forall i :: 0 <= i < |rs| ==> rs[i].start < rs[i].end)
    && (forall i, j :: 0 <= i < j < |rs| ==> rs[i].end <= rs[j].start)
  }

  predicate In(rs: seq<Range>, p: nat) {
    exists i :: 0 <= i < |rs| && rs[i].Has(p)
  }

  predicate Overlaps(r: Range, s: Range) {
    r.start < s.end && s.start < r.end
  }

  lemma InThree(s: seq<Range>, at: nat, n: nat)
    requires at < n <= |s|
    ensures s[..n] == s[..at] + [s[at]] + s[at + 1..n]
  {
  }

  class ExclusionTable {
    const ranges: array<Range>     // GC_excl_table, of MAX_EXCLUSIONS
    var entries: nat               // GC_excl_table_entries

    ghost predicate Valid()
      reads this, ranges
    {
      entries <= ranges.Length && Ordered(Table())
    }

    ghost function Table(): seq<Range>
      reads this, ranges
      requires entries <= ranges.Length
    {
      ranges[..entries]
    }

    constructor (most: nat)
      ensures Valid() && fresh(ranges) && ranges.Length == most && Table() == []
    {
      ranges := new Range[most](_ => Range(0, 0));
      entries := 0;
    }

    /** `GC_next_exclusion`: the first range that has an address from start on. */
    method Next(start: nat) returns (next: Option<nat>)
      requires Valid() && entries > 0
      ensures next.None? ==> forall i :: 0 <= i < entries ==> ranges[i].end <= start
      ensures next.Some? ==> next.value < entries && ranges[next.value].end > start
                             && forall i :: 0 <= i < next.value ==> ranges[i].end <= start
    {
      var low, high := 0, entries - 1;
      while high > low
        invariant 0 <= low <= high < entries
        invariant forall i :: 0 <= i < low ==> ranges[i].end <= start
        invariant high < entries - 1 ==> ranges[high].end > start
      {
        var mid := (low + high) / 2;
        if ranges[mid].end <= start {
          EndsAscend(Table(), mid);
          low := mid + 1;
        } else {
          high := mid;
        }
      }
      if ranges[low].end <= start {
        return None;
      }
      return Some(low);
    }

    /** `GC_exclude_static_roots_inner`; the range is refused if it overlaps one in the table, or there is no room. */
    method Exclude(start: nat, finish: nat) returns (accepted: bool)
      requires Valid() && start < finish
      modifies this`entries, ranges
      ensures Valid()
      ensures !accepted ==> Table() == old(Table())
      ensures accepted ==> forall p: nat :: In(Table(), p) <==> In(old(Table()), p) || start <= p < finish
      ensures (exists i :: 0 <= i < |old(Table())| && Overlaps(old(Table())[i], Range(start, finish))) ==> !accepted
      ensures !accepted ==> (exists i :: 0 <= i < |old(Table())| && Overlaps(old(Table())[i], Range(start, finish)))
                            || old(entries) == ranges.Length
    {
      var next := None;
      if entries > 0 {
        next := Next(start);
      }
      ghost var before := Table();
      var at := if next.Some? then next.value else entries;
      Apart(before, at, start, finish);
      if next.Some? {
        if ranges[at].start < finish {
          assert Overlaps(before[at], Range(start, finish));
          return false;
        }
        if ranges[at].start == finish {
          Extended(before, at, start);
          ranges[at] := Range(start, ranges[at].end);
          assert Table() == before[at := Range(start, before[at].end)];
          return true;
        }
      }
      if entries >= ranges.Length {
        return false;
      }
      InsertAt(at, Range(start, finish));
      return true;
    }

    /** The part of `GC_exclude_static_roots_inner` that moves later ranges up to make room for one. */
    method InsertAt(at: nat, r: Range)
      requires Valid() && at <= entries < ranges.Length && r.start < r.end
      requires (forall i :: 0 <= i < at ==> ranges[i].end <= r.start) && (at < entries ==> r.end <= ranges[at].start)
      modifies this`entries, ranges
      ensures Valid() && forall p: nat :: In(Table(), p) <==> In(old(Table()), p) || r.Has(p)
    {
      ghost var before := Table();
      Inserted(before, at, r);
      MoveUp(at);
      ranges[at] := r;
      entries := entries + 1;
      InThree(ranges[..], at, entries);
      assert ranges[..at] == before[..at] && ranges[at + 1..entries] == before[at..];
    }

    /** The loop that makes room. */
    method MoveUp(at: nat)
      requires at <= entries < ranges.Length
      modifies ranges
      ensures ranges[..at] == old(ranges[..at]) && ranges[at + 1..entries + 1] == old(ranges[at..entries])
    {
      var i := entries;
      while i > at
        invariant at <= i <= entries
        invariant forall j :: 0 <= j < i ==> ranges[j] == old(ranges[j])
        invariant forall j :: i < j <= entries ==> ranges[j] == old(ranges[j - 1])
      {
        ranges[i] := ranges[i - 1];
        i := i - 1;
      }
    }

    /** `GC_push_conditional_with_exclusions`: the ranges that are pushed, in order. */
    method PushOutside(bottom: nat, top: nat) returns (pushed: seq<Range>)
      requires Valid() && entries > 0
      ensures Ordered(pushed)
      ensures forall p: nat :: In(pushed, p) <==> bottom <= p < top && !In(Table(), p)
    {
      pushed := [];
      var b := bottom;
      while b < top
        invariant bottom <= b && Ordered(pushed) && (forall i :: 0 <= i < |pushed| ==> pushed[i].end <= b)
        invariant forall p: nat :: In(pushed, p) <==> bottom <= p < b && p < top && !In(Table(), p)
        decreases top - b
      {
        var next := Next(b);
        ghost var at := if next.Some? then next.value else entries;
        Outside(Table(), at, b);
        if next.None? || ranges[next.value].start >= top {
          Pushed(pushed, Range(b, top));
          pushed := pushed + [Range(b, top)];
          break;
        }
        var start := ranges[next.value].start;
        if start > b {
          Pushed(pushed, Range(b, start));
          pushed := pushed + [Range(b, start)];
        }
        b := ranges[next.value].end;
      }
    }
  }

  lemma EndsAscend(rs: seq<Range>, i: nat)
    requires Ordered(rs) && i < |rs|
    ensures forall j :: 0 <= j <= i ==> rs[j].end <= rs[i].end
  {
  }

  /** Where the first range that ends after start is at `at`, and it does not start before finish, no range overlaps. */
  lemma Apart(rs: seq<Range>, at: nat, start: nat, finish: nat)
    requires Ordered(rs) && at <= |rs| && start < finish && (forall i :: 0 <= i < at ==> rs[i].end <= start)
    ensures (at < |rs| && rs[at].start < finish) || forall i :: 0 <= i < |rs| ==> !Overlaps(rs[i], Range(start, finish))
  {
  }

  lemma Extended(rs: seq<Range>, at: nat, start: nat)
    requires Ordered(rs) && at < |rs| && start < rs[at].start && forall i :: 0 <= i < at ==> rs[i].end <= start
    ensures var after := rs[at := Range(start, rs[at].end)];
            Ordered(after) && forall p: nat :: In(after, p) <==> In(rs, p) || start <= p < rs[at].start
  {
    var after := rs[at := Range(start, rs[at].end)];
    forall p: nat ensures In(after, p) <==> In(rs, p) || start <= p < rs[at].start {
      if i :| 0 <= i < |rs| && rs[i].Has(p) {
        assert after[i].Has(p);
      }
      if start <= p < rs[at].start {
        assert after[at].Has(p);
      }
      if i :| 0 <= i < |rs| && after[i].Has(p) {
        assert i != at || p >= rs[at].start ==> rs[i].Has(p);
      }
    }
  }

  lemma Inserted(rs: seq<Range>, at: nat, r: Range)
    requires Ordered(rs) && at <= |rs| && r.start < r.end
    requires (forall i :: 0 <= i < at ==> rs[i].end <= r.start) && (at < |rs| ==> r.end <= rs[at].start)
    ensures var after := rs[..at] + [r] + rs[at..];
            Ordered(after) && forall p: nat :: In(after, p) <==> In(rs, p) || r.Has(p)
  {
    InsertedIn(rs, at, r);
    var after := rs[..at] + [r] + rs[at..];
    forall i | 0 <= i < |after| ensures after[i] == if i < at then rs[i] else if i == at then r else rs[i - 1] {
    }
  }

  lemma InsertedIn(rs: seq<Range>, at: nat, r: Range)
    requires at <= |rs|
    ensures var after := rs[..at] + [r] + rs[at..]; forall p: nat :: In(after, p) <==> In(rs, p) || r.Has(p)
  {
    var after := rs[..at] + [r] + rs[at..];
    forall p: nat ensures In(after, p) <==> In(rs, p) || r.Has(p) {
      if i :| 0 <= i < |rs| && rs[i].Has(p) {
        assert after[if i < at then i else i + 1].Has(p);
      }
      if r.Has(p) {
        assert after[at].Has(p);
      }
      if i :| 0 <= i < |after| && after[i].Has(p) {
        assert i != at ==> rs[if i < at then i else i - 1].Has(p);
      }
    }
  }

  /** What is excluded from b on, where the first range that ends after b is at `at`. */
  lemma Outside(rs: seq<Range>, at: nat, b: nat)
    requires Ordered(rs) && at <= |rs| && (forall i :: 0 <= i < at ==> rs[i].end <= b) && (at < |rs| ==> rs[at].end > b)
    ensures at == |rs| ==> forall p: nat :: b <= p ==> !In(rs, p)
    ensures at < |rs| ==> forall p: nat :: b <= p < rs[at].end ==> (In(rs, p) <==> rs[at].start <= p)
  {
    if at < |rs| {
      forall p: nat | b <= p < rs[at].end ensures In(rs, p) <==> rs[at].start <= p {
        if rs[at].start <= p {
          assert rs[at].Has(p);
        }
      }
    }
  }

  lemma Pushed(pushed: seq<Range>, r: Range)
    requires Ordered(pushed) && r.start < r.end && forall i :: 0 <= i < |pushed| ==> pushed[i].end <= r.start
    ensures Ordered(pushed + [r]) && forall p: nat :: In(pushed + [r], p) <==> In(pushed, p) || r.Has(p)
  {
    Inserted(pushed, |pushed|, r);
    assert pushed[..|pushed|] + [r] + pushed[|pushed|..] == pushed + [r];
  }
}
