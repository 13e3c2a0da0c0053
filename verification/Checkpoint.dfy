/**
 The marker a retention trim leaves in the chain, and the boundary it attests.

 A JSON document is modelled by what its text parses to: for an object, the
 members in the order they are written, repetitions included. A store may hand the
 document back respelled, so nothing here depends on that order.
 */
module Checkpoint {
  import opened Prelude
  import opened Chain

  const PRUNE_ACTION := "retention_prune"

  datatype Value = Text(text: string) | Whole(number: int) | Null | Unfit

  datatype Document = Unparsable | NotAnObject | Object(members: seq<(string, Value)>)

  // Case folding and hexadecimal

  /** Unicode simple folding, as far as it reaches an ASCII letter. */
  function Fold(c: char): char {
    if 'A' <= c <= 'Z' then (c as int + 32) as char
    else if c == '\U{017F}' then 's'
    else if c == '\U{212A}' then 'k'
    else c
  }

  function FoldAll(s: string): (r: string)
    ensures |r| == |s|
    ensures forall i :: 0 <= i < |s| ==> r[i] == Fold(s[i])
  {
    seq(|s|, i requires 0 <= i < |s| => Fold(s[i]))
  }

  predicate EqualFold(a: string, b: string) {
    FoldAll(a) == FoldAll(b)
  }

  function HexDigit(n: nat): (c: char)
    requires n < 16
    ensures Fold(c) == c
  {
    "0123456789abcdef"[n]
  }

  function Hex(bs: seq<Byte>): (s: string)
    ensures |s| == 2 * |bs|
  {
    if |bs| == 0 then "" else [HexDigit(bs[0] / 16), HexDigit(bs[0] % 16)] + Hex(bs[1..])
  }

  lemma HexDigitInjective(m: nat, n: nat)
    requires m < 16 && n < 16
    ensures HexDigit(m) == HexDigit(n) <==> m == n
  {
    var digits := "0123456789abcdef";
    assert forall i :: 0 <= i < 10 ==> digits[i] as int == 48 + i;
    assert forall i :: 10 <= i < 16 ==> digits[i] as int == 87 + i;
  }

  /** The comparison ignores case, and still no two hashes share a spelling. */
  lemma {:induction false} HexFoldInjective(a: seq<Byte>, b: seq<Byte>)
    ensures EqualFold(Hex(a), Hex(b)) <==> a == b
    decreases |a|
  {
    if |a| == |b| && |a| > 0 {
      var x, y := Hex(a), Hex(b);
      HexFoldInjective(a[1..], b[1..]);
      HexDigitInjective(a[0] / 16, b[0] / 16);
      HexDigitInjective(a[0] % 16, b[0] % 16);
      assert FoldAll(x)[2..] == FoldAll(Hex(a[1..]));
      assert FoldAll(y)[2..] == FoldAll(Hex(b[1..]));
      assert a == [a[0]] + a[1..] && b == [b[0]] + b[1..];
      if EqualFold(x, y) {
        assert FoldAll(x)[0] == FoldAll(y)[0] && FoldAll(x)[1] == FoldAll(y)[1];
      }
    } else if |a| != |b| {
      assert |FoldAll(Hex(a))| != |FoldAll(Hex(b))|;
    }
  }

  // Reading the document

  datatype Marker = Marker(action: string, number: int, hash: string, mistyped: bool)

  const BLANK := Marker("", 0, "", false)

  /** One member taken into the struct it is decoded into: an unknown key is skipped, null sets nothing. */
  function Take(m: Marker, key: string, value: Value): Marker {
    if value.Null? then m
    else if EqualFold(key, "action") then
      if value.Text? then m.(action := value.text) else m.(mistyped := true)
    else if EqualFold(key, "pruned_through_seq") then
      if value.Whole? && -TWO_63 <= value.number < TWO_63 then m.(number := value.number) else m.(mistyped := true)
    else if EqualFold(key, "pruned_through_hash") then
      if value.Text? then m.(hash := value.text) else m.(mistyped := true)
    else m
  }

  function Decode(members: seq<(string, Value)>): Marker {
    if |members| == 0 then BLANK
    else
      var last := members[|members| - 1];
      Take(Decode(members[..|members| - 1]), last.0, last.1)
  }

  function PruneMarkerDetail(throughSeq: Int64, throughHash: seq<Byte>, entries: int): Document {
    Object([("action", Text(PRUNE_ACTION)), ("pruned_through_seq", Whole(throughSeq)),
            ("pruned_through_hash", Text(Hex(throughHash))), ("entries", Whole(entries))])
  }

  predicate MarkerAttestsCheckpoint(detail: Document, throughSeq: Int64, throughHash: seq<Byte>) {
    |throughHash| == HASH_SIZE &&
    detail.Object? &&
    var m := Decode(detail.members);
    !m.mistyped && m.action == PRUNE_ACTION && m.number == throughSeq && EqualFold(m.hash, Hex(throughHash))
  }

  /** No document at all, honest or not, attests two boundaries. */
  lemma AttestsOneBoundary(detail: Document, s: Int64, x: seq<Byte>, t: Int64, y: seq<Byte>)
    requires MarkerAttestsCheckpoint(detail, s, x) && MarkerAttestsCheckpoint(detail, t, y)
    ensures s == t && x == y
  {
    HexFoldInjective(x, y);
  }

  lemma KeysDiffer()
    ensures !EqualFold("action", "pruned_through_seq") && !EqualFold("action", "pruned_through_hash")
    ensures !EqualFold("pruned_through_seq", "pruned_through_hash")
    ensures !EqualFold("entries", "action") && !EqualFold("entries", "pruned_through_seq")
    ensures !EqualFold("entries", "pruned_through_hash")
  {
    assert |FoldAll("action")| == 6 && |FoldAll("pruned_through_seq")| == 18;
    assert |FoldAll("pruned_through_hash")| == 19 && |FoldAll("entries")| == 7;
  }

  /** What one member of a marker sets, and that it disturbs nothing else. */
  lemma TakeMarkerMember(m: Marker, x: (string, Value), s: Int64, hash: seq<Byte>, n: int)
    requires x in PruneMarkerDetail(s, hash, n).members
    ensures Take(m, x.0, x.1) ==
            if x == ("action", Text(PRUNE_ACTION)) then m.(action := PRUNE_ACTION)
            else if x == ("pruned_through_seq", Whole(s)) then m.(number := s)
            else if x == ("pruned_through_hash", Text(Hex(hash))) then m.(hash := Hex(hash))
            else m
  {
    KeysDiffer();
  }

  /** Reading the members of a marker in any order, repeated or not, fills in what they say. */
  lemma {:induction false} DecodeMarker(members: seq<(string, Value)>, s: Int64, hash: seq<Byte>, n: int)
    requires forall x <- members :: x in PruneMarkerDetail(s, hash, n).members
    ensures var m := Decode(members);
            !m.mistyped &&
            (m.action == if ("action", Text(PRUNE_ACTION)) in members then PRUNE_ACTION else "") &&
            (m.number == if ("pruned_through_seq", Whole(s)) in members then s else 0) &&
            (m.hash == if ("pruned_through_hash", Text(Hex(hash))) in members then Hex(hash) else "")
  {
    if |members| > 0 {
      var init, last := members[..|members| - 1], members[|members| - 1];
      assert members == init + [last];
      DecodeMarker(init, s, hash, n);
      TakeMarkerMember(Decode(init), last, s, hash, n);
    }
  }

  // What a document may say besides

  /** The same text but for letters written in upper case. */
  predicate UpToCase(a: string, b: string) {
    |a| == |b| && forall i :: 0 <= i < |a| ==> a[i] == b[i] || ('A' <= a[i] <= 'Z' && a[i] as int + 32 == b[i] as int)
  }

  lemma {:induction false} HexIsLowerCase(bs: seq<Byte>, i: nat)
    requires i < |Hex(bs)|
    ensures Fold(Hex(bs)[i]) == Hex(bs)[i]
  {
    if i >= 2 {
      HexIsLowerCase(bs[1..], i - 2);
    }
  }

  /** A hash written in upper case, in whole or in part, is taken for the one it spells. */
  lemma CaseIsIgnored(written: string, hash: seq<Byte>)
    requires UpToCase(written, Hex(hash))
    ensures EqualFold(written, Hex(hash))
  {
    forall i | 0 <= i < |written|
      ensures Fold(written[i]) == Fold(Hex(hash)[i])
    {
      HexIsLowerCase(hash, i);
    }
  }

  /** A member the reader has no use for: another key, or null. */
  predicate Idle(x: (string, Value)) {
    x.1 == Null || !(EqualFold(x.0, "action") || EqualFold(x.0, "pruned_through_seq") || EqualFold(x.0, "pruned_through_hash"))
  }

  /** Such a member changes nothing wherever it stands. */
  lemma {:induction false} IdleMembersAreSkipped(a: seq<(string, Value)>, x: (string, Value), b: seq<(string, Value)>)
    requires Idle(x)
    ensures Decode(a + [x] + b) == Decode(a + b)
    decreases |b|
  {
    if |b| == 0 {
      assert (a + [x] + b)[..|a|] == a && a + b == a;
    } else {
      var init, last := b[..|b| - 1], b[|b| - 1];
      assert (a + [x] + b)[..|a| + |b|] == a + [x] + init && (a + b)[..|a| + |b| - 1] == a + init;
      IdleMembersAreSkipped(a, x, init);
    }
  }

  /** A member that is read but has a value of another kind: such a document attests nothing. */
  predicate Misfit(x: (string, Value)) {
    x.1 != Null &&
    (((EqualFold(x.0, "action") || EqualFold(x.0, "pruned_through_hash")) && !x.1.Text?) ||
     (EqualFold(x.0, "pruned_through_seq") && !(x.1.Whole? && -0x8000_0000_0000_0000 <= x.1.number <= 0x7fff_ffff_ffff_ffff)))
  }

  lemma {:induction false} MisfitsAreRefused(members: seq<(string, Value)>, throughSeq: Int64, throughHash: seq<Byte>)
    ensures Decode(members).mistyped <==> exists x <- members :: Misfit(x)
    ensures (exists x <- members :: Misfit(x)) ==> !MarkerAttestsCheckpoint(Object(members), throughSeq, throughHash)
  {
    if |members| > 0 {
      var init, last := members[..|members| - 1], members[|members| - 1];
      assert members == init + [last];
      MisfitsAreRefused(init, throughSeq, throughHash);
      MisfitIsNoted(Decode(init), last);
      assert (exists x <- members :: Misfit(x)) <==> ((exists x <- init :: Misfit(x)) || Misfit(last));
    }
  }

  lemma MisfitIsNoted(m: Marker, x: (string, Value))
    ensures Take(m, x.0, x.1).mistyped <==> m.mistyped || Misfit(x)
  {
    FoldedKeysDiffer(x.0);
  }

  lemma FoldedKeysDiffer(key: string)
    ensures EqualFold(key, "action") ==> |key| == 6
    ensures EqualFold(key, "pruned_through_seq") ==> |key| == 18
    ensures EqualFold(key, "pruned_through_hash") ==> |key| == 19
  {
    assert |FoldAll(key)| == |key| && |FoldAll("action")| == 6;
    assert |FoldAll("pruned_through_seq")| == 18 && |FoldAll("pruned_through_hash")| == 19;
  }

  /** The last member under a key that is not null has this value. */
  predicate LastSays(members: seq<(string, Value)>, key: string, value: Value) {
    exists i :: 0 <= i < |members| && EqualFold(members[i].0, key) && members[i].1 == value && SilentAfter(members, key, i)
  }

  predicate SilentAfter(members: seq<(string, Value)>, key: string, i: int) {
    forall j :: i < j < |members| && j >= 0 && EqualFold(members[j].0, key) ==> members[j].1 == Null
  }

  lemma LastSaysGrows(init: seq<(string, Value)>, last: (string, Value), key: string, value: Value)
    requires value != Null
    ensures var speaks := EqualFold(last.0, key) && last.1 != Null;
            (LastSays(init + [last], key, value) <==> if speaks then last.1 == value else LastSays(init, key, value)) &&
            (SilentAfter(init + [last], key, -1) <==> !speaks && SilentAfter(init, key, -1))
  {
    var all, n := init + [last], |init|;
    assert all[n] == last && forall j :: 0 <= j < n ==> all[j] == init[j];
    if i: int :| 0 <= i < |init| && EqualFold(init[i].0, key) && init[i].1 == value && SilentAfter(init, key, i) {
      assert all[i] == init[i];
      assert !(EqualFold(last.0, key) && last.1 != Null) ==> SilentAfter(all, key, i);
    }
    if EqualFold(last.0, key) && last.1 == value {
      assert SilentAfter(all, key, n);
    }
    if i: int :| 0 <= i < |all| && EqualFold(all[i].0, key) && all[i].1 == value && SilentAfter(all, key, i) {
      assert i < n ==> SilentAfter(init, key, i);
    }
    if SilentAfter(all, key, -1) {
      assert forall j :: 0 <= j < n ==> all[j] == init[j];
    }
  }

  /** What one member sets when its value is of the right kind. */
  lemma FitIsTaken(m: Marker, x: (string, Value))
    requires !Misfit(x)
    ensures var t := Take(m, x.0, x.1);
            (if EqualFold(x.0, "action") && x.1 != Null then x.1 == Text(t.action) else t.action == m.action) &&
            (if EqualFold(x.0, "pruned_through_hash") && x.1 != Null then x.1 == Text(t.hash) else t.hash == m.hash) &&
            (if EqualFold(x.0, "pruned_through_seq") && x.1 != Null then x.1 == Whole(t.number) else t.number == m.number)
  {
    FoldedKeysDiffer(x.0);
  }

  /** Each field is what the last member under its key says, and blank when none says anything. */
  lemma {:induction false} ActionIsWhatIsSaid(members: seq<(string, Value)>, text: string)
    requires forall x <- members :: !Misfit(x)
    ensures Decode(members).action == text <==>
            LastSays(members, "action", Text(text)) || (text == "" && SilentAfter(members, "action", -1))
  {
    if |members| > 0 {
      var init, last := members[..|members| - 1], members[|members| - 1];
      assert members == init + [last];
      ActionIsWhatIsSaid(init, text);
      LastSaysGrows(init, last, "action", Text(text));
      FitIsTaken(Decode(init), last);
    }
  }

  lemma {:induction false} HashIsWhatIsSaid(members: seq<(string, Value)>, text: string)
    requires forall x <- members :: !Misfit(x)
    ensures Decode(members).hash == text <==>
            LastSays(members, "pruned_through_hash", Text(text)) || (text == "" && SilentAfter(members, "pruned_through_hash", -1))
  {
    if |members| > 0 {
      var init, last := members[..|members| - 1], members[|members| - 1];
      assert members == init + [last];
      HashIsWhatIsSaid(init, text);
      LastSaysGrows(init, last, "pruned_through_hash", Text(text));
      FitIsTaken(Decode(init), last);
    }
  }

  lemma {:induction false} NumberIsWhatIsSaid(members: seq<(string, Value)>, number: int)
    requires forall x <- members :: !Misfit(x)
    ensures Decode(members).number == number <==>
            LastSays(members, "pruned_through_seq", Whole(number)) || (number == 0 && SilentAfter(members, "pruned_through_seq", -1))
  {
    if |members| > 0 {
      var init, last := members[..|members| - 1], members[|members| - 1];
      assert members == init + [last];
      NumberIsWhatIsSaid(init, number);
      LastSaysGrows(init, last, "pruned_through_seq", Whole(number));
      FitIsTaken(Decode(init), last);
    }
  }

  /**
   A document attests a boundary exactly when, nothing in it being misfit, the last word
   under each key is the prune action, that sequence, and the boundary hash in any case.
   A missing sequence stands for zero.
   */
  lemma AttestsWhatItSays(members: seq<(string, Value)>, throughSeq: Int64, throughHash: seq<Byte>)
    ensures MarkerAttestsCheckpoint(Object(members), throughSeq, throughHash) <==>
            |throughHash| == 32 && (forall x <- members :: !Misfit(x)) &&
            LastSays(members, "action", Text("retention_prune")) &&
            (LastSays(members, "pruned_through_seq", Whole(throughSeq)) ||
             (throughSeq == 0 && SilentAfter(members, "pruned_through_seq", -1))) &&
            exists text :: LastSays(members, "pruned_through_hash", Text(text)) && EqualFold(text, Hex(throughHash))
  {
    MisfitsAreRefused(members, throughSeq, throughHash);
    if |throughHash| == 32 && forall x <- members :: !Misfit(x) {
      var m := Decode(members);
      ActionIsWhatIsSaid(members, "retention_prune");
      NumberIsWhatIsSaid(members, throughSeq);
      HashIsWhatIsSaid(members, m.hash);
      assert |FoldAll(m.hash)| == |m.hash| && |FoldAll(Hex(throughHash))| == 64;
      forall text | LastSays(members, "pruned_through_hash", Text(text))
        ensures text == m.hash
      {
        HashIsWhatIsSaid(members, text);
      }
    }
  }

  /**
   A marker, respelled by the store in any order, attests exactly the boundary it was
   written for, and only when that boundary carries a hash.
   */
  lemma MarkerAttestsItsBoundary(
      detail: Document, s: Int64, hash: seq<Byte>, n: int, throughSeq: Int64, throughHash: seq<Byte>)
    requires detail.Object? && multiset(detail.members) == multiset(PruneMarkerDetail(s, hash, n).members)
    ensures MarkerAttestsCheckpoint(detail, throughSeq, throughHash) <==>
            throughSeq == s && throughHash == hash && |hash| == HASH_SIZE
  {
    var written := PruneMarkerDetail(s, hash, n).members;
    forall x
      ensures x in detail.members <==> x in written
    {
      assert x in detail.members <==> x in multiset(detail.members);
      assert x in written <==> x in multiset(written);
    }
    assert written[0] in written && written[1] in written && written[2] in written;
    DecodeMarker(detail.members, s, hash, n);
    HexFoldInjective(hash, throughHash);
  }

  /**
   What remains of a verified log after a trim verifies from whatever boundary the
   marker of that trim attests, however the store respelled the marker.
   */
  lemma TrimmedLogVerifies(
      h: HashFn, log: seq<Entry>, prevHash: Bytes, cut: nat, n: int, detail: Document, s: Int64, x: Bytes)
    requires 0 < cut <= |log| && Intact(h, log, prevHash)
    requires detail.Object?
    requires multiset(detail.members) ==
             multiset(PruneMarkerDetail(log[cut - 1].number, log[cut - 1].entryHash, n).members)
    requires MarkerAttestsCheckpoint(detail, s, x)
    ensures s == log[cut - 1].number && Intact(h, log[cut..], x)
    ensures BrokenAt(h, log[cut..], x) == 0
  {
    MarkerAttestsItsBoundary(detail, log[cut - 1].number, log[cut - 1].entryHash, n, s, x);
    assert log == log[..cut] + log[cut..];
    IntactConcat(h, log[..cut], log[cut..], prevHash);
    FirstBrokenIsFirst(h, log[cut..], x);
  }
}
