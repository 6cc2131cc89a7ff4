/** The rank slots of the page as values: what one slot contributes to the
    saved colon-terminated string and to the total, the share link, and how
    a saved string is split back into the slots on page load. A slot holds
    the text of its input; it holds a rank when that text is a non-empty
    string of decimal digits. */
module Ranks {
  import opened Text
  import opened Scoring

  /** The local storage key of the saved slots. */
  const RecordsKey := "records"

  /** The points one slot earns: a slot without a rank earns nothing.
      A slot adds between 0 and 40000 points, and adds some exactly when
      it holds a rank from 1 to one million. */
  function SlotScore(v: string): (r: real)
    ensures 0.0 <= r <= 40000.0
    ensures r > 0.0 <==> ParseNat(v).Some? && 1 <= ParseNat(v).value <= 1000000
  {
    match ParseNat(v)
    case Some(p) => PointRange(p); CalculatePoint(p)
    case None => 0.0
  }

  /** The label beside a slot: its truncated score, blank when that is 0. */
  function SlotLabel(v: string): string {
    var n := LabelOf(SlotScore(v));
    if n == 0 then "" else ShowNat(n)
  }

  /** A slot shows a label exactly when it holds a rank from 1 to one
      million, and the label then reads back as the truncated score. */
  lemma LabelShown(v: string)
    ensures SlotLabel(v) != "" <==>
      ParseNat(v).Some? && 1 <= ParseNat(v).value <= 1000000
    ensures SlotLabel(v) != "" ==> ParseNat(SlotLabel(v)) == Some(SlotScore(v).Floor)
  {
    if ParseNat(v).Some? {
      var p := ParseNat(v).value;
      if 1 <= p <= 1000000 {
        MillionthRank();
        if p < 1000000 {
          Monotone(p, 1000000);
        }
        assert SlotScore(v) >= 125.0;
      }
    }
  }

  /** What `calculateAll` writes for one slot: the text when it holds a
      rank, otherwise nothing. */
  function Emit(v: string): (e: string)
    ensures ParseNat(v).Some? ==> e == v
    ensures ParseNat(v).None? ==> e == ""
    ensures ParseNat(e) == ParseNat(v)
    ensures forall i :: 0 <= i < |e| ==> e[i] != ':'
  {
    if ParseNat(v).Some? then v else ""
  }

  /** The saved form of the slots: each slot emitted and followed by `:`. */
  function Serialize(vs: seq<string>): string {
    if |vs| == 0 then "" else Serialize(vs[..|vs| - 1]) + Emit(vs[|vs| - 1]) + ":"
  }

  /** The sum of the slot scores. */
  function Total(vs: seq<string>): real {
    if |vs| == 0 then 0.0 else Total(vs[..|vs| - 1]) + SlotScore(vs[|vs| - 1])
  }

  /** `n` colons: the saved form of `n` blank slots. */
  function Colons(n: nat): (s: string)
    ensures |s| == n && forall i :: 0 <= i < n ==> s[i] == ':'
  {
    if n == 0 then "" else Colons(n - 1) + ":"
  }

  /** `href.split('?')[0]`: the address up to its first `?`. */
  function BeforeQuery(href: string): (r: string)
    ensures r <= href
    ensures forall i :: 0 <= i < |r| ==> r[i] != '?'
    ensures r == href || href[|r|] == '?'
  {
    if |href| == 0 || href[0] == '?' then "" else [href[0]] + BeforeQuery(href[1..])
  }

  /** The share link: the page address without its query, then the saved
      slots as the `ranks` parameter. The link keeps the address of the
      page it was made on, and ends in the saved slots. */
  function ShareLink(href: string, saved: string): (link: string)
    ensures BeforeQuery(link) == BeforeQuery(href)
    ensures link[|BeforeQuery(href)|..] == "?ranks=" + saved
  {
    var base := BeforeQuery(href);
    var link := base + "?ranks=" + saved;
    assert link == base + ("?ranks=" + saved);
    BeforeQueryPrefix(base, "?ranks=" + saved);
    link
  }

  /** The part before the query of an address that has no `?` followed by
      a query is that address. */
  lemma {:induction false} BeforeQueryPrefix(a: string, q: string)
    requires forall i :: 0 <= i < |a| ==> a[i] != '?'
    requires |q| > 0 && q[0] == '?'
    ensures BeforeQuery(a + q) == a
  {
    if |a| == 0 {
      assert a + q == q;
    } else {
      assert (a + q)[1..] == a[1..] + q;
      BeforeQueryPrefix(a[1..], q);
      assert [a[0]] + a[1..] == a;
    }
  }

  /** A share link made on a page opened from a share link points at the
      same page: only the saved slots differ. */
  lemma ShareLinkStable(href: string, first: string, second: string)
    ensures ShareLink(ShareLink(href, first), second) == ShareLink(href, second)
  {
  }

  /** `String.prototype.split(':')`: the pieces between colons, always at
      least one, none of them holding a colon; a string ending in `:`
      ends with an empty piece. */
  function SplitColon(s: string): (parts: seq<string>)
    ensures |parts| >= 1
    ensures forall k :: 0 <= k < |parts| ==> ':' !in parts[k]
  {
    if |s| == 0 then [""]
    else if s[0] == ':' then [""] + SplitColon(s[1..])
    else
      var rest := SplitColon(s[1..]);
      var parts := [[s[0]] + rest[0]] + rest[1..];
      assert forall k :: 1 <= k < |parts| ==> parts[k] == rest[k];
      parts
  }

  /** Joining the pieces back with `:` gives the split string. */
  function JoinColon(parts: seq<string>): string
    requires |parts| >= 1
  {
    if |parts| == 1 then parts[0] else parts[0] + ":" + JoinColon(parts[1..])
  }

  lemma {:induction false} JoinSplit(s: string)
    ensures JoinColon(SplitColon(s)) == s
  {
    if |s| > 0 {
      JoinSplit(s[1..]);
      var rest := SplitColon(s[1..]);
      if s[0] == ':' {
        assert SplitColon(s)[1..] == rest;
      } else {
        var parts := SplitColon(s);
        assert parts[0] == [s[0]] + rest[0];
        if |rest| > 1 {
          assert parts[1..] == rest[1..];
          assert JoinColon(rest) == rest[0] + ":" + JoinColon(rest[1..]);
        }
        assert s == [s[0]] + s[1..];
      }
    }
  }

  /** The piece before a colon-free prefix's colon is that prefix. */
  lemma {:induction false} SplitAfter(a: string, b: string)
    requires forall i :: 0 <= i < |a| ==> a[i] != ':'
    ensures SplitColon(a + ":" + b) == [a] + SplitColon(b)
  {
    if |a| == 0 {
      assert a + ":" + b == [':'] + b;
      assert ([':'] + b)[1..] == b;
    } else {
      var s := a + ":" + b;
      assert s[0] == a[0];
      assert s[1..] == a[1..] + ":" + b;
      SplitAfter(a[1..], b);
      assert [a[0]] + a[1..] == a;
    }
  }

  lemma SerializeSnoc(vs: seq<string>, v: string)
    ensures Serialize(vs + [v]) == Serialize(vs) + (Emit(v) + ":")
  {
    assert (vs + [v])[..|vs|] == vs;
  }

  /** Saving a slot in front of others: its piece comes first. */
  lemma {:induction false} SerializeCons(v: string, vs: seq<string>)
    ensures Serialize([v] + vs) == Emit(v) + ":" + Serialize(vs)
  {
    if |vs| == 0 {
      assert [v] + vs == [] + [v];
      SerializeSnoc([], v);
    } else {
      var front, last := vs[..|vs| - 1], vs[|vs| - 1];
      assert vs == front + [last];
      SerializeCons(v, front);
      SerializeConsStep(v, front, last);
    }
  }

  lemma SerializeConsStep(v: string, front: seq<string>, last: string)
    requires Serialize([v] + front) == Emit(v) + ":" + Serialize(front)
    ensures Serialize([v] + (front + [last])) == Emit(v) + ":" + Serialize(front + [last])
  {
    assert [v] + (front + [last]) == ([v] + front) + [last];
    SerializeSnoc([v] + front, last);
    SerializeSnoc(front, last);
    var head, mid, tail := Emit(v) + ":", Serialize(front), Emit(last) + ":";
    assert (head + mid) + tail == head + (mid + tail);
  }

  /** Each slot is emitted followed by `:`, and an emitted slot has no
      colon, so the saved form of `n` slots has exactly `n` colons. */
  lemma {:induction false} ColonCount(vs: seq<string>)
    ensures Count(Serialize(vs), ':') == |vs|
  {
    if |vs| > 0 {
      var front := vs[..|vs| - 1];
      ColonCount(front);
      var e := Emit(vs[|vs| - 1]);
      CountAbsent(e, ':');
      CountConcat(Serialize(front), e, ':');
      CountConcat(Serialize(front) + e, ":", ':');
    }
  }

  /** Splitting the saved form gives back every emitted slot, in order,
      and one trailing empty piece. */
  lemma {:induction false} SplitSerialize(vs: seq<string>)
    ensures |SplitColon(Serialize(vs))| == |vs| + 1
    ensures forall i :: 0 <= i < |vs| ==> SplitColon(Serialize(vs))[i] == Emit(vs[i])
    ensures SplitColon(Serialize(vs))[|vs|] == ""
  {
    if |vs| > 0 {
      var rest := vs[1..];
      assert vs == [vs[0]] + rest;
      SerializeCons(vs[0], rest);
      SplitAfter(Emit(vs[0]), Serialize(rest));
      SplitSerialize(rest);
    }
  }

  /** Whether page load takes piece `i` of the saved string into slot `i`:
      the piece exists and holds a rank. */
  predicate Takes(pieces: seq<string>, i: nat) {
    i < |pieces| && ParseNat(pieces[i]).Some?
  }

  /** The slots after page load has walked the split saved string. */
  function LoadSlots(cur: seq<string>, saved: string): (r: seq<string>)
    ensures |r| == |cur|
  {
    var pieces := SplitColon(saved);
    seq(|cur|, i requires 0 <= i < |cur| => if Takes(pieces, i) then pieces[i] else cur[i])
  }

  /** Saving and then loading restores every slot that held a rank and
      leaves every other slot as the page had it. */
  lemma LoadAfterSerialize(cur: seq<string>, vs: seq<string>)
    ensures forall i :: 0 <= i < |cur| ==>
      LoadSlots(cur, Serialize(vs))[i] ==
        if i < |vs| && ParseNat(vs[i]).Some? then vs[i] else cur[i]
  {
    SplitSerialize(vs);
    var pieces := SplitColon(Serialize(vs));
    forall i | 0 <= i < |cur|
      ensures LoadSlots(cur, Serialize(vs))[i] ==
        if i < |vs| && ParseNat(vs[i]).Some? then vs[i] else cur[i]
    {
      if i < |vs| {
        assert pieces[i] == Emit(vs[i]);
      } else if i == |vs| {
        assert pieces[i] == "";
      } else {
        assert !Takes(pieces, i);
      }
    }
  }

  /** The saved string page load reads: a non-empty `ranks` query parameter,
      else the stored records; none when that is missing or empty. */
  function ChosenRanks(ranksParam: Option<string>, local: map<string, string>): (r: Option<string>)
    ensures r.Some? ==> r.value != ""
  {
    var saved := if ranksParam.Some? && ranksParam.value != "" then ranksParam else Get(local, RecordsKey);
    if saved.Some? && saved.value != "" then saved else None
  }

  /** A non-empty `ranks` parameter wins over whatever is stored; without
      one the stored records are used when non-empty. */
  lemma QueryWins(ranksParam: Option<string>, local: map<string, string>)
    ensures ranksParam.Some? && ranksParam.value != "" ==> ChosenRanks(ranksParam, local) == ranksParam
    ensures (ranksParam.None? || ranksParam.value == "") ==>
      ChosenRanks(ranksParam, local) ==
        if RecordsKey in local && local[RecordsKey] != "" then Some(local[RecordsKey]) else None
  {
  }

  /** The total lies between 0 and 40000 per slot, and it is positive
      exactly when some slot holds a rank from 1 to one million. */
  lemma {:induction false} TotalRange(vs: seq<string>)
    ensures 0.0 <= Total(vs) <= 40000.0 * |vs| as real
    ensures Total(vs) > 0.0 <==>
      exists i :: 0 <= i < |vs| && ParseNat(vs[i]).Some? && 1 <= ParseNat(vs[i]).value <= 1000000
  {
    if |vs| > 0 {
      var front, last := vs[..|vs| - 1], vs[|vs| - 1];
      TotalRange(front);
      if Total(vs) > 0.0 {
        if SlotScore(last) > 0.0 {
          assert ParseNat(vs[|vs| - 1]).Some? && 1 <= ParseNat(vs[|vs| - 1]).value <= 1000000;
        } else {
          var i :| 0 <= i < |front| && ParseNat(front[i]).Some? && 1 <= ParseNat(front[i]).value <= 1000000;
          assert vs[i] == front[i];
        }
      } else {
        forall i | 0 <= i < |vs|
          ensures !(ParseNat(vs[i]).Some? && 1 <= ParseNat(vs[i]).value <= 1000000)
        {
          if i < |front| {
            assert vs[i] == front[i];
          }
        }
      }
    }
  }

  /** `n` blank slots save as `n` colons and total 0: what `reset` writes. */
  lemma {:induction false} BlankSlots(n: nat)
    ensures Serialize(seq(n, _ => "")) == Colons(n)
    ensures Total(seq(n, _ => "")) == 0.0
  {
    if n > 0 {
      BlankSlots(n - 1);
      assert seq(n, _ => "")[..n - 1] == seq(n - 1, _ => "");
    }
  }
}
