/**
 Reading a domain name out of a DNS message (`dns_name` in `guest-agent/assets/detection_worker.py`),
 with message compression as in section 4.1.4 of RFC 1035.
 */
module DnsName {
  import opened Basics
  import Strings = Text

  type Bytes = seq<u8>
  type Labels = seq<Bytes>

  const MAX_HOPS: nat := 64
  const MAX_OCTETS: nat := 254

  // ----- what a message says at an offset -----

  datatype Hop = Terminator | Label(bytes: Bytes, next: nat) | Pointer(target: nat) | Malformed

  /** `((length & 63) << 8) | low`, for a first byte whose two top bits are set. */
  function PointerTarget(length: int, low: int): nat
    requires 0xc0 <= length && 0 <= low
  {
    (length - 0xc0) * 0x100 + low
  }

  /** The two top bits of the first byte choose between a label and a pointer. */
  function HopAt(data: Bytes, offset: nat): Hop {
    if offset >= |data| then Malformed
    else if data[offset] == 0 then Terminator
    else if data[offset] >= 0xc0 then
      if offset + 1 >= |data| then Malformed else Pointer(PointerTarget(data[offset], data[offset + 1]))
    else if data[offset] > 63 || offset + 1 + data[offset] > |data| then Malformed
    else Label(data[offset + 1..offset + 1 + data[offset]], offset + 1 + data[offset])
  }

  datatype Name = Name(labels: Labels, end: nat)

  /** The name at `offset` and the offset behind it, if the chain of hops ends within `hops` of them. */
  function Resolve(data: Bytes, offset: nat, hops: nat): Option<Name>
    decreases hops
  {
    if hops == 0 then None
    else match HopAt(data, offset)
      case Malformed => None
      case Terminator => Some(Name([], offset + 1))
      case Label(bytes, next) => Resume([bytes], None, Resolve(data, next, hops - 1))
      case Pointer(target) => Resume([], Some(offset + 2), Resolve(data, target, hops - 1))
  }

  /** What is known so far, with the rest of the name behind it; the first pointer settles the end. */
  function Resume(labels: Labels, end: Option<nat>, rest: Option<Name>): Option<Name> {
    match rest
    case None => None
    case Some(name) => Some(Name(labels + name.labels, if end.Some? then end.value else name.end))
  }

  function FirstOf<T>(a: Option<T>, b: Option<T>): Option<T> {
    if a.Some? then a else b
  }

  lemma ResumeTwice(a: Labels, b: Labels, end: Option<nat>, first: Option<nat>, rest: Option<Name>)
    ensures Resume(a, end, Resume(b, first, rest)) == Resume(a + b, FirstOf(end, first), rest)
  {
    if rest.Some? {
      assert a + (b + rest.value.labels) == a + b + rest.value.labels;
    }
  }

  predicate Ascii(part: Bytes) {
    forall i :: 0 <= i < |part| ==> part[i] < 128
  }

  function Octets(labels: Labels): nat {
    if labels == [] then 0 else Octets(labels[..|labels| - 1]) + |labels[|labels| - 1]| + 1
  }

  /** Names the decoder is willing to return. */
  predicate Acceptable(labels: Labels) {
    (forall i :: 0 <= i < |labels| ==> Ascii(labels[i])) && Octets(labels) <= MAX_OCTETS
  }

  lemma {:induction false} AcceptablePrefix(labels: Labels, more: Labels)
    requires Acceptable(labels + more)
    ensures Acceptable(labels)
    decreases |more|
  {
    var all := labels + more;
    if more == [] {
      assert all == labels;
    } else {
      var shorter := more[..|more| - 1];
      assert all[..|all| - 1] == labels + shorter;
      assert forall i :: 0 <= i < |labels + shorter| ==> (labels + shorter)[i] == all[i];
      AcceptablePrefix(labels, shorter);
    }
  }

  function Text(part: Bytes): string
    requires Ascii(part)
  {
    seq(|part|, i requires 0 <= i < |part| => part[i] as char)
  }

  function Join(labels: Labels): string
    requires forall i :: 0 <= i < |labels| ==> Ascii(labels[i])
  {
    if labels == [] then ""
    else if |labels| == 1 then Text(labels[0])
    else Text(labels[0]) + "." + Join(labels[1..])
  }

  /** Byte for byte the characters of the label. */
  predicate Reads(part: string, bytes: Bytes) {
    |part| == |bytes| && forall i :: 0 <= i < |part| ==> part[i] as int == bytes[i]
  }

  predicate AllRead(parts: seq<string>, labels: Labels) {
    |parts| == |labels| && forall k :: 0 <= k < |parts| ==> Reads(parts[k], labels[k])
  }

  const DOT: u8 := 46

  function Texts(labels: Labels): (parts: seq<string>)
    requires forall i :: 0 <= i < |labels| ==> Ascii(labels[i])
    ensures |parts| == |labels| && forall k :: 0 <= k < |parts| ==> parts[k] == Text(labels[k])
  {
    if labels == [] then [] else [Text(labels[0])] + Texts(labels[1..])
  }

  lemma {:induction false} JoinIsJoinWith(labels: Labels)
    requires forall i :: 0 <= i < |labels| ==> Ascii(labels[i])
    ensures Join(labels) == Strings.JoinWith(Texts(labels), '.')
  {
    if |labels| > 1 {
      JoinIsJoinWith(labels[1..]);
      assert Texts(labels)[1..] == Texts(labels[1..]);
    }
  }

  lemma NoDot(bytes: Bytes)
    requires Ascii(bytes) && DOT !in bytes
    ensures '.' !in Text(bytes)
  {
    assert forall i :: 0 <= i < |bytes| ==> bytes[i] in bytes;
  }

  lemma NoDots(labels: Labels)
    requires forall i :: 0 <= i < |labels| ==> Ascii(labels[i]) && DOT !in labels[i]
    ensures forall p :: p in Texts(labels) ==> '.' !in p
  {
    var parts := Texts(labels);
    forall p | p in parts ensures '.' !in p {
      var k :| 0 <= k < |parts| && parts[k] == p;
      NoDot(labels[k]);
    }
  }

  lemma TextsRead(labels: Labels)
    requires forall i :: 0 <= i < |labels| ==> Ascii(labels[i])
    ensures AllRead(Texts(labels), labels)
  {}

  /** Cutting a name at its dots gives the labels back in order if and only if none of them contains a dot itself. */
  lemma JoinSplits(labels: Labels)
    requires labels != [] && forall i :: 0 <= i < |labels| ==> Ascii(labels[i])
    ensures AllRead(Strings.Split(Join(labels), '.'), labels) <==> forall i :: 0 <= i < |labels| ==> DOT !in labels[i]
  {
    if forall i :: 0 <= i < |labels| ==> DOT !in labels[i] {
      JoinIsJoinWith(labels);
      NoDots(labels);
      Strings.SplitJoined(Texts(labels), '.');
      TextsRead(labels);
    } else {
      DotsAreLost(labels);
    }
  }

  lemma DotStays(part: string, bytes: Bytes)
    requires Reads(part, bytes) && DOT in bytes
    ensures '.' in part
  {
    var k :| 0 <= k < |bytes| && bytes[k] == DOT;
    assert part[k] == '.';
  }

  lemma DotsAreLost(labels: Labels)
    requires forall i :: 0 <= i < |labels| ==> Ascii(labels[i])
    requires exists i :: 0 <= i < |labels| && DOT in labels[i]
    ensures !AllRead(Strings.Split(Join(labels), '.'), labels)
  {
    var parts := Strings.Split(Join(labels), '.');
    var i :| 0 <= i < |labels| && DOT in labels[i];
    if AllRead(parts, labels) {
      DotStays(parts[i], labels[i]);
      Strings.JoinedSplit(Join(labels), '.');
      assert false;
    }
  }

  // ----- chains that come back to themselves -----

  /** Following the hops from `from` leads to `to` after `n` of them. */
  predicate Reaches(data: Bytes, from: nat, to: nat, n: nat)
    decreases n
  {
    if n == 0 then from == to
    else match HopAt(data, from)
      case Label(_, next) => Reaches(data, next, to, n - 1)
      case Pointer(target) => Reaches(data, target, to, n - 1)
      case _ => false
  }

  lemma {:induction false} ReachesOneMore(data: Bytes, from: nat, mid: nat, to: nat, n: nat)
    requires Reaches(data, from, mid, n) && Reaches(data, mid, to, 1)
    ensures Reaches(data, from, to, n + 1)
    decreases n
  {
    if n > 0 {
      match HopAt(data, from) {
        case Label(_, next) => ReachesOneMore(data, next, mid, to, n - 1);
        case Pointer(target) => ReachesOneMore(data, target, mid, to, n - 1);
      }
    }
  }

  lemma {:induction false} ResolvedLater(data: Bytes, from: nat, to: nat, n: nat, hops: nat)
    requires Reaches(data, from, to, n) && Resolve(data, from, hops).Some?
    ensures n < hops && Resolve(data, to, hops - n).Some?
    decreases n
  {
    if n > 0 {
      match HopAt(data, from) {
        case Label(_, next) => ResolvedLater(data, next, to, n - 1, hops - 1);
        case Pointer(target) => ResolvedLater(data, target, to, n - 1, hops - 1);
      }
    }
  }

  /** A cycle of labels and pointers never spells a name, however many hops are allowed. */
  lemma {:induction false} CyclesNeverResolve(data: Bytes, offset: nat, n: nat, hops: nat)
    requires n > 0 && Reaches(data, offset, offset, n)
    ensures Resolve(data, offset, hops) == None
    decreases hops
  {
    if Resolve(data, offset, hops).Some? {
      ResolvedLater(data, offset, offset, n, hops);
      CyclesNeverResolve(data, offset, n, hops - n);
    }
  }

  // ----- the decoder -----

  datatype Error =
    InvalidName | TruncatedPointer | InvalidLabel | NotAscii | OversizedName | RecursionLimit

  datatype Result = Ok(name: string, end: nat) | Err(error: Error)

  /** The result is the acceptable name that the chain spells within the hops allowed, or an error. */
  predicate IsResult(resolved: Option<Name>, r: Result) {
    match resolved
    case None => r.Err?
    case Some(name) =>
      if Acceptable(name.labels) then r == Ok(Join(name.labels), name.end) else r.Err?
  }

  ghost predicate AllReach(data: Bytes, seen: set<nat>, offset: nat) {
    forall o :: o in seen ==> exists n :: n > 0 && Reaches(data, o, offset, n)
  }

  lemma SeenStep(data: Bytes, seen: set<nat>, offset: nat, next: nat)
    requires AllReach(data, seen, offset) && Reaches(data, offset, next, 1)
    ensures AllReach(data, seen + {offset}, next)
  {
    forall o | o in seen + {offset}
      ensures exists n :: n > 0 && Reaches(data, o, next, n)
    {
      if o in seen {
        var n :| n > 0 && Reaches(data, o, offset, n);
        ReachesOneMore(data, o, offset, next, n);
      }
    }
  }

  lemma SeenIsCycle(data: Bytes, seen: set<nat>, offset: nat, hops: nat)
    requires AllReach(data, seen, offset) && offset in seen
    ensures Resolve(data, offset, hops) == None
  {
    var n :| n > 0 && Reaches(data, offset, offset, n);
    CyclesNeverResolve(data, offset, n, hops);
  }

  /** The state of the loop: what has been read and what is ahead make up the whole name. */
  ghost predicate Inv(data: Bytes, whole: Option<Name>, hops: nat, labels: Labels, seen: set<nat>, end: Option<nat>, offset: nat) {
    && whole == Resume(labels, end, Resolve(data, offset, hops))
    && AllReach(data, seen, offset)
    && Acceptable(labels)
  }

  lemma InvStart(data: Bytes, start: nat)
    ensures Inv(data, Resolve(data, start, MAX_HOPS), MAX_HOPS, [], {}, None, start)
  {
    var whole := Resolve(data, start, MAX_HOPS);
    if whole.Some? { assert [] + whole.value.labels == whole.value.labels; }
  }

  lemma InvStop(data: Bytes, whole: Option<Name>, hops: nat, labels: Labels, seen: set<nat>, end: Option<nat>, offset: nat)
    requires Inv(data, whole, hops, labels, seen, end, offset)
    requires offset in seen || HopAt(data, offset).Malformed?
    ensures whole == None
  {
    if offset in seen { SeenIsCycle(data, seen, offset, hops); }
  }

  lemma InvEnd(data: Bytes, whole: Option<Name>, hops: nat, labels: Labels, seen: set<nat>, end: Option<nat>, offset: nat)
    requires hops > 0 && Inv(data, whole, hops, labels, seen, end, offset) && HopAt(data, offset).Terminator?
    ensures whole == Some(Name(labels, if end.Some? then end.value else offset + 1)) && Acceptable(labels)
  {
    assert labels + [] == labels;
  }

  lemma InvPointer(data: Bytes, whole: Option<Name>, hops: nat, labels: Labels, seen: set<nat>, end: Option<nat>, offset: nat)
    requires hops > 0 && Inv(data, whole, hops, labels, seen, end, offset) && HopAt(data, offset).Pointer?
    ensures Inv(data, whole, hops - 1, labels, seen + {offset}, if end.Some? then end else Some(offset + 2),
                HopAt(data, offset).target)
  {
    var target := HopAt(data, offset).target;
    ResumeTwice(labels, [], end, Some(offset + 2), Resolve(data, target, hops - 1));
    assert labels + [] == labels;
    assert Reaches(data, offset, target, 1) by { assert Reaches(data, target, target, 0); }
    SeenStep(data, seen, offset, target);
  }

  lemma InvLabel(data: Bytes, whole: Option<Name>, hops: nat, labels: Labels, seen: set<nat>, end: Option<nat>, offset: nat,
                 part: Bytes)
    requires hops > 0 && Inv(data, whole, hops, labels, seen, end, offset)
    requires HopAt(data, offset).Label? && HopAt(data, offset).bytes == part
    ensures Ascii(part) && Octets(labels + [part]) <= MAX_OCTETS ==>
              Inv(data, whole, hops - 1, labels + [part], seen + {offset}, end, HopAt(data, offset).next)
    ensures !(Ascii(part) && Octets(labels + [part]) <= MAX_OCTETS) ==> whole.None? || !Acceptable(whole.value.labels)
  {
    var next := HopAt(data, offset).next;
    ResumeTwice(labels, [part], end, None, Resolve(data, next, hops - 1));
    assert Reaches(data, offset, next, 1) by { assert Reaches(data, next, next, 0); }
    SeenStep(data, seen, offset, next);
    AcceptableNext(labels, part);
    if whole.Some? && Acceptable(whole.value.labels) {
      AcceptablePrefix(labels + [part], Resolve(data, next, hops - 1).value.labels);
    }
  }

  lemma AcceptableNext(labels: Labels, part: Bytes)
    requires Acceptable(labels)
    ensures Acceptable(labels + [part]) <==> Ascii(part) && Octets(labels + [part]) <= MAX_OCTETS
  {
    assert (labels + [part])[|labels|] == part;
  }

  datatype Step = Done(result: Result) | Next(labels: Labels, end: Option<nat>, offset: nat)

  /** One round of the loop. */
  method ReadHop(data: Bytes, labels: Labels, seen: set<nat>, end: Option<nat>, offset: nat,
                 ghost whole: Option<Name>, ghost hops: nat)
    returns (step: Step)
    requires hops > 0 && Inv(data, whole, hops, labels, seen, end, offset)
    ensures step.Done? ==> IsResult(whole, step.result)
    ensures step.Next? ==> Inv(data, whole, hops - 1, step.labels, seen + {offset}, step.end, step.offset)
  {
    if offset >= |data| || offset in seen {
      InvStop(data, whole, hops, labels, seen, end, offset);
      return Done(Err(InvalidName));
    }
    var length: int := data[offset];
    var at := offset + 1;
    if length == 0 {
      InvEnd(data, whole, hops, labels, seen, end, offset);
      return Done(Ok(Join(labels), if end.Some? then end.value else at));
    }
    if length >= 0xc0 {
      if at >= |data| {
        InvStop(data, whole, hops, labels, seen, end, offset);
        return Done(Err(TruncatedPointer));
      }
      InvPointer(data, whole, hops, labels, seen, end, offset);
      return Next(labels, if end.Some? then end else Some(at + 1), PointerTarget(length, data[at]));
    }
    if length > 63 || at + length > |data| {
      InvStop(data, whole, hops, labels, seen, end, offset);
      return Done(Err(InvalidLabel));
    }
    var part := data[at..at + length];
    InvLabel(data, whole, hops, labels, seen, end, offset, part);
    if !Ascii(part) {
      return Done(Err(NotAscii));
    }
    if Octets(labels + [part]) > MAX_OCTETS {
      return Done(Err(OversizedName));
    }
    return Next(labels + [part], end, at + length);
  }

  method ReadDnsName(data: Bytes, start: nat) returns (r: Result)
    ensures IsResult(Resolve(data, start, MAX_HOPS), r)
  {
    var offset := start;
    var labels: Labels := [];
    var seen: set<nat> := {};
    var end: Option<nat> := None;
    ghost var whole := Resolve(data, start, MAX_HOPS);
    InvStart(data, start);
    for i := 0 to MAX_HOPS
      invariant Inv(data, whole, MAX_HOPS - i, labels, seen, end, offset)
    {
      var step := ReadHop(data, labels, seen, end, offset, whole, MAX_HOPS - i);
      if step.Done? {
        return step.result;
      }
      seen := seen + {offset};
      labels := step.labels;
      end := step.end;
      offset := step.offset;
    }
    return Err(RecursionLimit);
  }

  // ----- encoding -----

  /** Labels of 1 to 63 bytes, as section 2.3.4 of RFC 1035 wants them. */
  predicate Encodable(labels: Labels) {
    forall i :: 0 <= i < |labels| ==> 1 <= |labels[i]| <= 63
  }

  /** Each label behind its length, without what comes after the last one. */
  function Encode(labels: Labels): Bytes
    requires Encodable(labels)
  {
    if labels == [] then [] else [|labels[0]|] + labels[0] + Encode(labels[1..])
  }

  predicate Holds(data: Bytes, offset: nat, bytes: Bytes) {
    offset + |bytes| <= |data| && forall i :: 0 <= i < |bytes| ==> data[offset + i] == bytes[i]
  }

  lemma HoldsParts(data: Bytes, offset: nat, a: Bytes, b: Bytes)
    requires Holds(data, offset, a + b)
    ensures Holds(data, offset, a) && Holds(data, offset + |a|, b)
  {
    assert forall i :: 0 <= i < |a| ==> a[i] == (a + b)[i];
    assert forall i :: 0 <= i < |b| ==> b[i] == (a + b)[|a| + i];
  }

  lemma LabelAt(data: Bytes, offset: nat, part: Bytes)
    requires 1 <= |part| <= 63 && Holds(data, offset, [|part|] + part)
    ensures HopAt(data, offset) == Label(part, offset + 1 + |part|)
  {
    var bytes := [|part|] + part;
    HoldsParts(data, offset, [|part|], part);
    assert data[offset + 0] == bytes[0];
    assert data[offset + 1..offset + 1 + |part|] == part;
  }

  lemma EncodeFirst(first: Bytes, rest: Labels)
    requires Encodable([first] + rest)
    ensures Encodable(rest) && Encode([first] + rest) == [|first|] + first + Encode(rest)
  {
    assert ([first] + rest)[0] == first && ([first] + rest)[1..] == rest;
    assert forall i :: 0 <= i < |rest| ==> rest[i] == ([first] + rest)[i + 1];
  }

  lemma FirstLabel(data: Bytes, offset: nat, first: Bytes, rest: Labels)
    requires Encodable([first] + rest) && Holds(data, offset, Encode([first] + rest))
    ensures Encodable(rest) && |Encode([first] + rest)| == 1 + |first| + |Encode(rest)|
    ensures Holds(data, offset + 1 + |first|, Encode(rest))
    ensures HopAt(data, offset) == Label(first, offset + 1 + |first|)
  {
    EncodeFirst(first, rest);
    assert ([first] + rest)[0] == first;
    HoldsParts(data, offset, [|first|] + first, Encode(rest));
    LabelAt(data, offset, first);
  }

  lemma LabelHop(data: Bytes, offset: nat, part: Bytes, next: nat, hops: nat)
    requires HopAt(data, offset) == Label(part, next) && hops > 0
    ensures Resolve(data, offset, hops) == Resume([part], None, Resolve(data, next, hops - 1))
  {}

  /** Every label takes one hop; what comes behind the labels decides the rest. */
  lemma {:induction false} ResolveLabels(data: Bytes, offset: nat, labels: Labels, hops: nat)
    requires Encodable(labels) && Holds(data, offset, Encode(labels)) && |labels| <= hops
    ensures Resolve(data, offset, hops) == Resume(labels, None, Resolve(data, offset + |Encode(labels)|, hops - |labels|))
    decreases |labels|
  {
    if labels == [] {
      ResumeNothing(Resolve(data, offset, hops));
    } else {
      var first, rest := labels[0], labels[1..];
      assert labels == [first] + rest;
      FirstLabel(data, offset, first, rest);
      var next := offset + 1 + |first|;
      ResolveLabels(data, next, rest, hops - 1);
      LabelHop(data, offset, first, next, hops);
      ResumeTwice([first], rest, None, None, Resolve(data, next + |Encode(rest)|, hops - 1 - |rest|));
    }
  }

  lemma ResumeNothing(rest: Option<Name>)
    ensures Resume([], None, rest) == rest
  {
    if rest.Some? { assert [] + rest.value.labels == rest.value.labels; }
  }

  lemma {:induction false} FewerHops(data: Bytes, offset: nat, hops: nat, more: nat)
    requires Resolve(data, offset, hops).Some? && hops <= more
    ensures Resolve(data, offset, more) == Resolve(data, offset, hops)
    decreases hops
  {
    match HopAt(data, offset) {
      case Label(_, next) => FewerHops(data, next, hops - 1, more - 1);
      case Pointer(target) => FewerHops(data, target, hops - 1, more - 1);
      case _ =>
    }
  }

  lemma TerminatorAt(data: Bytes, offset: nat, encoded: Bytes)
    requires Holds(data, offset, encoded + [0])
    ensures Holds(data, offset, encoded) && HopAt(data, offset + |encoded|) == Terminator
  {
    var last := offset + |encoded|;
    var zero: Bytes := [0];
    HoldsParts(data, offset, encoded, zero);
    assert data[last + 0] == zero[0];
  }

  lemma PointerBytes(data: Bytes, at: nat, pointer: Bytes)
    requires |pointer| == 2 && Holds(data, at, pointer)
    ensures data[at] == pointer[0] && data[at + 1] == pointer[1]
  {
    assert data[at + 0] == pointer[0];
  }

  lemma PointerAt(data: Bytes, offset: nat, encoded: Bytes, target: nat)
    requires target < 0x4000 && Holds(data, offset, encoded + [0xc0 + target / 0x100, target % 0x100])
    ensures Holds(data, offset, encoded) && HopAt(data, offset + |encoded|) == Pointer(target)
  {
    var at := offset + |encoded|;
    HoldsParts(data, offset, encoded, [0xc0 + target / 0x100, target % 0x100]);
    PointerBytes(data, at, [0xc0 + target / 0x100, target % 0x100]);
  }

  lemma {:induction false} OctetsCons(first: Bytes, labels: Labels)
    ensures Octets([first] + labels) == |first| + 1 + Octets(labels)
  {
    var all := [first] + labels;
    if labels == [] {
      assert all[..0] == [];
    } else {
      OctetsCons(first, labels[..|labels| - 1]);
      assert all[..|all| - 1] == [first] + labels[..|labels| - 1] && all[|all| - 1] == labels[|labels| - 1];
    }
  }

  /** A name is acceptable if it is ASCII and takes at most 254 octets encoded, without its terminator. */
  lemma AcceptableExactly(labels: Labels)
    requires Encodable(labels)
    ensures Acceptable(labels) <==> |Encode(labels)| <= 254 && forall i :: 0 <= i < |labels| ==> Ascii(labels[i])
  {
    OctetsAreEncoded(labels);
  }

  lemma {:induction false} OctetsAreEncoded(labels: Labels)
    requires Encodable(labels)
    ensures |Encode(labels)| == Octets(labels)
  {
    if labels != [] {
      OctetsAreEncoded(labels[1..]);
      OctetsCons(labels[0], labels[1..]);
      assert [labels[0]] + labels[1..] == labels;
    }
  }

  lemma LastHop(data: Bytes, offset: nat, hops: nat)
    requires hops > 0 && HopAt(data, offset) == Terminator
    ensures Resolve(data, offset, hops) == Some(Name([], offset + 1))
  {}

  lemma PointerHop(data: Bytes, offset: nat, target: nat, hops: nat)
    requires HopAt(data, offset) == Pointer(target)
    ensures Resolve(data, offset, hops + 1) == Resume([], Some(offset + 2), Resolve(data, target, hops))
  {}

  lemma EnoughHops(data: Bytes, offset: nat, labels: Labels, hops: nat)
    requires Encodable(labels) && Holds(data, offset, Encode(labels) + [0]) && |labels| < hops
    ensures Resolve(data, offset, hops) == Some(Name(labels, offset + |Encode(labels)| + 1))
  {
    TerminatorAt(data, offset, Encode(labels));
    ResolveLabels(data, offset, labels, hops);
    LastHop(data, offset + |Encode(labels)|, hops - |labels|);
    ResumeTerminator(labels, offset + |Encode(labels)| + 1);
  }

  lemma TooFewHops(data: Bytes, offset: nat, labels: Labels, hops: nat)
    requires Encodable(labels) && Holds(data, offset, Encode(labels) + [0]) && |labels| >= hops
    ensures Resolve(data, offset, hops) == None
  {
    TerminatorAt(data, offset, Encode(labels));
    ResolveLabels(data, offset, labels, |labels|);
    NotEarlier(data, offset, hops, |labels|);
  }

  /** Written out in full, a name resolves exactly when it has fewer labels than there are hops. */
  lemma PlainName(data: Bytes, offset: nat, labels: Labels, hops: nat)
    requires Encodable(labels) && Holds(data, offset, Encode(labels) + [0])
    ensures |labels| < hops ==> Resolve(data, offset, hops) == Some(Name(labels, offset + |Encode(labels)| + 1))
    ensures |labels| >= hops ==> Resolve(data, offset, hops) == None
  {
    if |labels| < hops { EnoughHops(data, offset, labels, hops); } else { TooFewHops(data, offset, labels, hops); }
  }

  /** It is read back exactly when, beyond that, its labels are ASCII and it is not too long. */
  lemma PlainNameIsRead(data: Bytes, offset: nat, labels: Labels, hops: nat, r: Result)
    requires Encodable(labels) && Holds(data, offset, Encode(labels) + [0])
    requires hops == MAX_HOPS && IsResult(Resolve(data, offset, hops), r)
    ensures r.Ok? <==> |labels| < hops && Acceptable(labels)
    ensures r.Ok? ==> r == Ok(Join(labels), offset + |Encode(labels)| + 1)
  {
    PlainName(data, offset, labels, hops);
  }

  lemma NotEarlier(data: Bytes, offset: nat, hops: nat, more: nat)
    requires Resolve(data, offset, more) == None && hops <= more
    ensures Resolve(data, offset, hops) == None
  {
    if Resolve(data, offset, hops).Some? { FewerHops(data, offset, hops, more); }
  }

  /** Labels in front of a pointer to a name that is spelled elsewhere make up one name. */
  lemma CompressedName(data: Bytes, offset: nat, labels: Labels, target: nat, ahead: nat, hops: nat)
    requires Encodable(labels) && target < 0x4000
    requires Holds(data, offset, Encode(labels) + [0xc0 + target / 0x100, target % 0x100])
    requires Resolve(data, target, ahead).Some? && |labels| + 1 + ahead <= hops
    ensures Resolve(data, offset, hops) ==
              Some(Name(labels + Resolve(data, target, ahead).value.labels, offset + |Encode(labels)| + 2))
  {
    PointerAt(data, offset, Encode(labels), target);
    CompressedChain(data, offset, labels, offset + |Encode(labels)|, target, ahead, hops);
  }

  lemma CompressedChain(data: Bytes, offset: nat, labels: Labels, at: nat, target: nat, ahead: nat, hops: nat)
    requires Encodable(labels) && Holds(data, offset, Encode(labels)) && at == offset + |Encode(labels)|
    requires HopAt(data, at) == Pointer(target)
    requires Resolve(data, target, ahead).Some? && |labels| + 1 + ahead <= hops
    ensures Resolve(data, offset, hops) == Some(Name(labels + Resolve(data, target, ahead).value.labels, at + 2))
  {
    ResolveLabels(data, offset, labels, hops);
    LabelsThenPointer(data, offset, labels, at, target, ahead, hops);
  }

  lemma LabelsThenPointer(data: Bytes, offset: nat, labels: Labels, at: nat, target: nat, ahead: nat, hops: nat)
    requires |labels| <= hops && Resolve(data, offset, hops) == Resume(labels, None, Resolve(data, at, hops - |labels|))
    requires HopAt(data, at) == Pointer(target)
    requires Resolve(data, target, ahead).Some? && |labels| + 1 + ahead <= hops
    ensures Resolve(data, offset, hops) == Some(Name(labels + Resolve(data, target, ahead).value.labels, at + 2))
  {
    PointerName(data, at, target, ahead, hops - |labels|);
    ResumeName(labels, Name(Resolve(data, target, ahead).value.labels, at + 2));
  }

  lemma ResumeName(labels: Labels, name: Name)
    ensures Resume(labels, None, Some(name)) == Some(Name(labels + name.labels, name.end))
  {}

  lemma PointerName(data: Bytes, at: nat, target: nat, ahead: nat, hops: nat)
    requires HopAt(data, at) == Pointer(target) && Resolve(data, target, ahead).Some? && ahead + 1 <= hops
    ensures Resolve(data, at, hops) == Some(Name(Resolve(data, target, ahead).value.labels, at + 2))
  {
    PointerHop(data, at, target, hops - 1);
    FewerHops(data, target, ahead, hops - 1);
    assert [] + Resolve(data, target, ahead).value.labels == Resolve(data, target, ahead).value.labels;
  }

  lemma ResumeTerminator(labels: Labels, end: nat)
    ensures Resume(labels, None, Some(Name([], end))) == Some(Name(labels, end))
  {
    assert labels + [] == labels;
  }

  /** `labels` are written at `offset`, and what follows at `at` completes the name. */
  predicate Spells(data: Bytes, offset: nat, hops: nat, labels: Labels, at: nat, name: Name) {
    && Encodable(labels) && Holds(data, offset, Encode(labels)) && at == offset + |Encode(labels)| && |labels| < hops
    && match HopAt(data, at)
       case Terminator => name == Name(labels, at + 1)
       case Pointer(target) =>
         var suffix := Resolve(data, target, hops - |labels| - 1);
         suffix.Some? && name == Name(labels + suffix.value.labels, at + 2)
       case _ => false
  }

  lemma HoldsFirst(data: Bytes, offset: nat, first: Bytes, rest: Bytes)
    requires HopAt(data, offset) == Label(first, offset + 1 + |first|) && Holds(data, offset + 1 + |first|, rest)
    ensures Holds(data, offset, [|first|] + first + rest)
  {
    var all := [|first|] + first + rest;
    forall i | 0 <= i < |all|
      ensures data[offset + i] == all[i]
    {
      if i > |first| {
        assert all[i] == rest[i - 1 - |first|];
        assert data[offset + 1 + |first| + (i - 1 - |first|)] == rest[i - 1 - |first|];
      }
    }
  }

  lemma OneMoreLabel(data: Bytes, offset: nat, hops: nat, first: Bytes, next: nat, rest: Labels, at: nat, name: Name)
    requires HopAt(data, offset) == Label(first, next) && hops > 0 && Spells(data, next, hops - 1, rest, at, name)
    ensures Spells(data, offset, hops, [first] + rest, at, Name([first] + name.labels, name.end))
  {
    var labels := [first] + rest;
    assert Encodable(labels);
    EncodeFirst(first, rest);
    HoldsFirst(data, offset, first, Encode(rest));
    if HopAt(data, at).Pointer? {
      var suffix := Resolve(data, HopAt(data, at).target, hops - |labels| - 1).value.labels;
      assert [first] + (rest + suffix) == labels + suffix;
    }
  }

  lemma NoMoreLabels(data: Bytes, offset: nat, hops: nat)
    requires Resolve(data, offset, hops).Some? && !HopAt(data, offset).Label?
    ensures Spells(data, offset, hops, [], offset, Resolve(data, offset, hops).value)
  {
  }

  /** And nothing else is a name: what resolves is labels in front of a terminator or of such a pointer. */
  lemma {:induction false} ResolvedIsSpelled(data: Bytes, offset: nat, hops: nat) returns (labels: Labels, at: nat)
    requires Resolve(data, offset, hops).Some?
    ensures Spells(data, offset, hops, labels, at, Resolve(data, offset, hops).value)
    decreases hops
  {
    match HopAt(data, offset) {
      case Label(first, next) =>
        var rest;
        rest, at := ResolvedIsSpelled(data, next, hops - 1);
        OneMoreLabel(data, offset, hops, first, next, rest, at, Resolve(data, next, hops - 1).value);
        labels := [first] + rest;
      case _ =>
        NoMoreLabels(data, offset, hops);
        labels, at := [], offset;
    }
  }

  /** A legal name of 64 one-byte labels, 129 octets in all, is refused for its number of labels. */
  lemma HopLimitExample(data: Bytes, labels: Labels, r: Result)
    requires labels == seq(64, i => [97]) && data == Encode(labels) + [0]
    requires IsResult(Resolve(data, 0, MAX_HOPS), r)
    ensures r.Err?
  {
    assert Holds(data, 0, Encode(labels) + [0]);
    PlainName(data, 0, labels, MAX_HOPS);
  }
}
