/** The responder against RFC 1035: names are read as section 3.1 encodes them,
    and replies decode by sections 4.1.1 to 4.1.4 to the answer intended. */
module DnsProofs {
  import opened Prelude
  import opened Dns

  // ── Names ──────────────────────────────────────────────────────────────────

  type Labels = seq<Bytes>

  /** Section 3.1: labels of 1 to 63 octets. */
  predicate WellFormedName(labels: Labels) {
    forall i :: 0 <= i < |labels| ==> 1 <= |labels[i]| <= 63
  }

  /** Labels that one length octet can announce. */
  predicate Spellable(labels: Labels) {
    forall i :: 0 <= i < |labels| ==> 1 <= |labels[i]| <= 255
  }

  function EncodeLabels(labels: Labels): Bytes
    requires Spellable(labels)
  {
    if labels == [] then []
    else
      var last := labels[|labels| - 1];
      EncodeLabels(labels[..|labels| - 1]) + [|last|] + last
  }

  /** An uncompressed name: length-prefixed labels and the root's zero octet. */
  function EncodeName(labels: Labels): Bytes
    requires Spellable(labels)
  {
    EncodeLabels(labels) + [0]
  }

  /** The labels joined by dots. */
  function Dotted(labels: Labels): Bytes {
    if labels == [] then []
    else if |labels| == 1 then labels[0]
    else Dotted(labels[..|labels| - 1]) + [DOT] + labels[|labels| - 1]
  }

  function Clip(name: Bytes): Bytes {
    name[..Min(|name|, 128)]
  }

  /** Collecting a label commutes with clipping to the buffer. */
  lemma ClipCommutes(name: Bytes, part: Bytes)
    ensures WithLabel(WithDot(Clip(name)), part) == Clip((if name == [] then [] else name + [DOT]) + part)
  {
  }

  lemma DottedSnoc(labels: Labels, k: nat)
    requires k < |labels|
    ensures Dotted(labels[..k + 1]) == (if k == 0 then [] else Dotted(labels[..k]) + [DOT]) + labels[k]
  {
    assert labels[..k + 1][..k] == labels[..k];
    if k == 0 {
      assert [] + labels[0] == labels[0];
    }
  }

  lemma DottedNonEmpty(labels: Labels)
    requires Spellable(labels) && labels != []
    ensures Dotted(labels) != []
  {
  }

  lemma EncodeSnoc(labels: Labels, k: nat)
    requires Spellable(labels) && k < |labels|
    ensures EncodeLabels(labels[..k + 1]) == EncodeLabels(labels[..k]) + [|labels[k]|] + labels[k]
  {
    assert labels[..k + 1][..k] == labels[..k];
  }

  lemma {:induction false} EncodePrefix(labels: Labels, k: nat)
    requires Spellable(labels) && k <= |labels|
    ensures EncodeLabels(labels[..k]) <= EncodeLabels(labels)
    decreases |labels| - k
  {
    if k < |labels| {
      EncodeSnoc(labels, k);
      EncodePrefix(labels, k + 1);
    } else {
      assert labels[..k] == labels;
    }
  }

  /** `msg` holds the encoded name at `at`. */
  predicate NameAt(msg: Bytes, at: nat, labels: Labels)
    requires Spellable(labels)
  {
    at + |EncodeName(labels)| <= |msg| && msg[at..at + |EncodeName(labels)|] == EncodeName(labels)
  }

  /** `q` holds the encoded labels at `at`; the name need not end after them. */
  predicate LabelsAt(q: Bytes, at: nat, labels: Labels)
    requires Spellable(labels)
  {
    at + |EncodeLabels(labels)| <= |q| && q[at..at + |EncodeLabels(labels)|] == EncodeLabels(labels)
  }

  /** Where label `k` lies. */
  lemma LabelAt(msg: Bytes, at: nat, labels: Labels, k: nat)
    requires Spellable(labels) && LabelsAt(msg, at, labels) && k < |labels|
    ensures var p := at + |EncodeLabels(labels[..k])|;
            && p + 1 + |labels[k]| <= |msg| && msg[p] == |labels[k]| && msg[p + 1..p + 1 + |labels[k]|] == labels[k]
            && p + 1 + |labels[k]| == at + |EncodeLabels(labels[..k + 1])|
  {
    EncodeSnoc(labels, k);
    EncodePrefix(labels, k + 1);
    var p := |EncodeLabels(labels[..k])|;
    var all := EncodeLabels(labels);
    hide EncodeLabels;
    PrefixParts(all, EncodeLabels(labels[..k]), labels[k]);
    WindowParts(msg, at, all, p, |labels[k]|);
  }

  lemma PrefixParts(name: Bytes, before: Bytes, part: Bytes)
    requires |part| < 256 && before + [|part|] + part <= name
    ensures name[|before|] == |part| && name[|before| + 1..|before| + 1 + |part|] == part
  {
  }

  lemma WindowParts(msg: Bytes, at: nat, window: Bytes, p: nat, len: nat)
    requires at + |window| <= |msg| && msg[at..at + |window|] == window && p + 1 + len <= |window|
    ensures msg[at + p] == window[p] && msg[at + p + 1..at + p + 1 + len] == window[p + 1..p + 1 + len]
  {
    forall k | 0 <= k < |window| ensures msg[at + k] == window[k] {
      assert msg[at..at + |window|][k] == msg[at + k];
    }
    var found, there := msg[at + p + 1..at + p + 1 + len], window[p + 1..p + 1 + len];
    forall k | 0 <= k < len ensures found[k] == there[k] {
      assert msg[at + (p + 1 + k)] == window[p + 1 + k];
    }
  }

  lemma RootAt(msg: Bytes, at: nat, labels: Labels)
    requires Spellable(labels) && NameAt(msg, at, labels)
    ensures var p := at + |EncodeLabels(labels)|; p < |msg| && msg[p] == 0
  {
  }

  lemma ScanOneLabel(q: Bytes, pos: nat, name: Bytes, part: Bytes)
    requires 0 < |part| && pos + 1 + |part| <= |q| && q[pos] == |part| && q[pos + 1..pos + 1 + |part|] == part
    ensures Scan(q, pos, name) == Scan(q, pos + 1 + |part|, WithLabel(WithDot(name), part))
  {
  }

  lemma {:induction false} ScanFollowsLabels(q: Bytes, at: nat, labels: Labels, k: nat)
    requires Spellable(labels) && LabelsAt(q, at, labels) && k <= |labels|
    requires at + |EncodeLabels(labels[..k])| <= |q|
    ensures Scan(q, at + |EncodeLabels(labels[..k])|, Clip(Dotted(labels[..k])))
            == Scan(q, at + |EncodeLabels(labels)|, Clip(Dotted(labels)))
    decreases |labels| - k
  {
    hide Dotted;
    hide WithDot;
    hide WithLabel;
    hide EncodeLabels;
    hide Scan;
    if k == |labels| {
      assert labels[..k] == labels;
    } else {
      LabelAt(q, at, labels, k);
      DottedSnoc(labels, k);
      ClipCommutes(Dotted(labels[..k]), labels[k]);
      if k > 0 {
        DottedNonEmpty(labels[..k]);
      } else {
        NoLabels(labels);
      }
      assert |labels[k]| >= 1;
      ScanOneLabel(q, at + |EncodeLabels(labels[..k])|, Clip(Dotted(labels[..k])), labels[k]);
      ScanFollowsLabels(q, at, labels, k + 1);
    }
  }

  lemma NoLabels(labels: Labels)
    ensures labels[..0] == [] && Dotted(labels[..0]) == [] && EncodeLabels(labels[..0]) == []
  {
  }

  /** Where the scan stops after the labels at `at`, for any octets at all: past a root
      octet, past the length of a label that the packet cuts short, or at its end. */
  function StopAfter(q: Bytes, p: nat): nat {
    if p < |q| then p + 1 else p
  }

  /** The scan of any query, well-formed or not. Let the question begin with these
      labels and then a root octet, a label cut short, or the end of the packet.
      The scan stops there, and the buffer holds exactly the first 128 bytes of
      the labels joined by dots, with one more dot before a label cut short. */
  lemma {:induction false} ScanReadsLabels(q: Bytes, at: nat, labels: Labels)
    requires Spellable(labels) && LabelsAt(q, at, labels)
    requires var p := at + |EncodeLabels(labels)|; p < |q| ==> q[p] == 0 || p + 1 + q[p] > |q|
    ensures var p := at + |EncodeLabels(labels)|;
            var cut := p < |q| && q[p] != 0;
            Scan(q, at, []) == (StopAfter(q, p), Clip(if cut && labels != [] then Dotted(labels) + [DOT] else Dotted(labels)))
  {
    hide Dotted;
    hide EncodeLabels;
    hide WithDot;
    NoLabels(labels);
    ScanFollowsLabels(q, at, labels, 0);
    if labels != [] {
      DottedNonEmpty(labels);
      ClipDot(Dotted(labels));
    } else {
      assert labels == labels[..0];
      NoDotYet();
    }
  }

  lemma NoDotYet()
    ensures WithDot([]) == [] && Clip([]) == []
  {
  }

  lemma ClipDot(name: Bytes)
    requires name != []
    ensures WithDot(Clip(name)) == Clip(name + [DOT])
  {
  }

  /** Every query begins so: the labels up to where its name stops. */
  lemma {:induction false} EveryQueryHasLabels(q: Bytes, at: nat) returns (labels: Labels)
    requires at <= |q|
    ensures Spellable(labels) && LabelsAt(q, at, labels)
    ensures var p := at + |EncodeLabels(labels)|; p < |q| ==> q[p] == 0 || p + 1 + q[p] > |q|
    decreases |q| - at
  {
    if at < |q| && q[at] != 0 && at + 1 + q[at] <= |q| {
      var first := q[at + 1..at + 1 + q[at]];
      var rest := EveryQueryHasLabels(q, at + 1 + q[at]);
      labels := [first] + rest;
      EncodeCons(first, rest);
      ConsAt(q, at, first, EncodeLabels(rest));
    } else {
      labels := [];
    }
  }

  lemma ConsAt(q: Bytes, at: nat, first: Bytes, rest: Bytes)
    requires |first| < 256 && at + 1 + |first| + |rest| <= |q| && q[at] == |first|
    requires q[at + 1..at + 1 + |first|] == first && q[at + 1 + |first|..at + 1 + |first| + |rest|] == rest
    ensures q[at..at + 1 + |first| + |rest|] == [|first|] + first + rest
  {
  }

  lemma {:induction false} EncodeCons(first: Bytes, rest: Labels)
    requires 1 <= |first| <= 255 && Spellable(rest)
    ensures Spellable([first] + rest)
    ensures EncodeLabels([first] + rest) == [|first|] + first + EncodeLabels(rest)
    decreases |rest|
  {
    var labels := [first] + rest;
    if rest == [] {
      assert labels == [first] && labels[..0] == [];
    } else {
      var front, last := rest[..|rest| - 1], rest[|rest| - 1];
      assert labels[..|labels| - 1] == [first] + front && labels[|labels| - 1] == last;
      EncodeCons(first, front);
      ConcatAssociates([|first|] + first, EncodeLabels(front), [|last|] + last);
      ConcatAssociates([|first|] + first + EncodeLabels(front), [|last|], last);
      ConcatAssociates(EncodeLabels(front), [|last|], last);
    }
  }

  lemma ConcatAssociates(a: Bytes, b: Bytes, c: Bytes)
    ensures a + b + c == a + (b + c)
  {
  }

  /** The scan reads every uncompressed name: it stops just past the root octet, and
      the buffer holds exactly the first 128 bytes of the labels joined by dots. */
  lemma ScanReadsName(q: Bytes, at: nat, labels: Labels)
    requires Spellable(labels) && NameAt(q, at, labels)
    ensures Scan(q, at, []) == (at + |EncodeName(labels)|, Clip(Dotted(labels)))
  {
    NameHasLabels(q, at, labels);
    ScanReadsLabels(q, at, labels);
  }

  lemma NameHasLabels(q: Bytes, at: nat, labels: Labels)
    requires Spellable(labels) && NameAt(q, at, labels)
    ensures LabelsAt(q, at, labels)
    ensures var p := at + |EncodeLabels(labels)|; p < |q| && q[p] == 0
  {
    hide EncodeLabels;
    var e := EncodeLabels(labels);
    assert q[at..at + |e| + 1] == e + [0];
    assert q[at..at + |e|] == q[at..at + |e| + 1][..|e|];
    assert q[at + |e|] == q[at..at + |e| + 1][|e|];
  }

  // ── A decoder ──────────────────────────────────────────────────────────────

  datatype Question = Question(name: Labels, qtype: nat, qclass: nat)

  datatype Record = Record(name: Labels, rtype: nat, rclass: nat, ttl: nat, rdata: Bytes)

  datatype Message = Message(id: nat, flags: nat, question: Question, answers: seq<Record>)

  /** A name at `pos`, and where the octets after it start. Section 4.1.4: the two
      high bits of a length mark a pointer, which must lead to before `bound`. */
  function DecodeName(msg: Bytes, pos: nat, bound: nat): Option<(Labels, nat)>
    decreases bound, |msg| - pos
  {
    if pos >= |msg| then None
    else
      var len := msg[pos];
      if len == 0 then Some(([], pos + 1))
      else if len < 64 then
        if pos + 1 + len > |msg| then None
        else
          var rest := DecodeName(msg, pos + 1 + len, bound);
          if rest.None? then None else Some(([msg[pos + 1..pos + 1 + len]] + rest.value.0, rest.value.1))
      else if len >= 192 && pos + 1 < |msg| && (len - 192) * 256 + msg[pos + 1] < bound then
        var target := (len - 192) * 256 + msg[pos + 1];
        var rest := DecodeName(msg, target, target);
        if rest.None? then None else Some((rest.value.0, pos + 2))
      else None
  }

  function U32(msg: Bytes, pos: nat): nat
    requires pos + 4 <= |msg|
  {
    U16(msg[pos], msg[pos + 1]) * 65536 + U16(msg[pos + 2], msg[pos + 3])
  }

  /** Section 4.1.3. */
  function DecodeRecord(msg: Bytes, pos: nat): Option<(Record, nat)> {
    var name := DecodeName(msg, pos, pos);
    if name.None? || name.value.1 + 10 > |msg| then None
    else
      var p := name.value.1;
      var rdlength := U16(msg[p + 8], msg[p + 9]);
      if p + 10 + rdlength > |msg| then None
      else Some((Record(name.value.0, U16(msg[p], msg[p + 1]), U16(msg[p + 2], msg[p + 3]), U32(msg, p + 4),
                        msg[p + 10..p + 10 + rdlength]), p + 10 + rdlength))
  }

  function DecodeRecords(msg: Bytes, pos: nat, count: nat): Option<(seq<Record>, nat)>
    decreases count
  {
    if count == 0 then Some(([], pos))
    else
      var r := DecodeRecord(msg, pos);
      if r.None? then None
      else
        var rest := DecodeRecords(msg, r.value.1, count - 1);
        if rest.None? then None else Some(([r.value.0] + rest.value.0, rest.value.1))
  }

  /** Sections 4.1.1 and 4.1.2: a message of one question and only answers, with
      nothing left over. */
  function DecodeMessage(msg: Bytes): Option<Message> {
    if |msg| < HEADER_LEN || U16(msg[4], msg[5]) != 1 || U16(msg[8], msg[9]) != 0 || U16(msg[10], msg[11]) != 0 then None
    else
      var name := DecodeName(msg, HEADER_LEN, HEADER_LEN);
      if name.None? || name.value.1 + 4 > |msg| then None
      else
        var p := name.value.1;
        var answers := DecodeRecords(msg, p + 4, U16(msg[6], msg[7]));
        if answers.None? || answers.value.1 != |msg| then None
        else Some(Message(U16(msg[0], msg[1]), U16(msg[2], msg[3]),
                          Question(name.value.0, U16(msg[p], msg[p + 1]), U16(msg[p + 2], msg[p + 3])), answers.value.0))
  }

  lemma {:induction false} DecodeFollowsLabels(msg: Bytes, at: nat, labels: Labels, k: nat, bound: nat)
    requires WellFormedName(labels) && NameAt(msg, at, labels) && k <= |labels|
    ensures DecodeName(msg, at + |EncodeLabels(labels[..k])|, bound) == Some((labels[k..], at + |EncodeName(labels)|))
    decreases |labels| - k
  {
    hide EncodeLabels;
    hide DecodeName;
    if k == |labels| {
      assert labels[..k] == labels && labels[k..] == [];
      RootAt(msg, at, labels);
      DecodeRoot(msg, at + |EncodeLabels(labels)|, bound);
    } else {
      NameHasLabels(msg, at, labels);
      LabelAt(msg, at, labels, k);
      DecodeFollowsLabels(msg, at, labels, k + 1, bound);
      DecodeOneLabel(msg, at + |EncodeLabels(labels[..k])|, labels[k], bound);
      assert [labels[k]] + labels[k + 1..] == labels[k..];
    }
  }

  lemma DecodeRoot(msg: Bytes, pos: nat, bound: nat)
    requires pos < |msg| && msg[pos] == 0
    ensures DecodeName(msg, pos, bound) == Some(([], pos + 1))
  {
  }

  lemma DecodeOneLabel(msg: Bytes, pos: nat, part: Bytes, bound: nat)
    requires 0 < |part| < 64 && pos + 1 + |part| <= |msg| && msg[pos] == |part| && msg[pos + 1..pos + 1 + |part|] == part
    requires DecodeName(msg, pos + 1 + |part|, bound).Some?
    ensures var rest := DecodeName(msg, pos + 1 + |part|, bound).value;
            DecodeName(msg, pos, bound) == Some(([part] + rest.0, rest.1))
  {
  }

  lemma DecodeReadsName(msg: Bytes, at: nat, labels: Labels, bound: nat)
    requires WellFormedName(labels) && NameAt(msg, at, labels)
    ensures DecodeName(msg, at, bound) == Some((labels, at + |EncodeName(labels)|))
  {
    NoLabels(labels);
    DecodeFollowsLabels(msg, at, labels, 0, bound);
    assert labels[0..] == labels;
  }

  // ── Replies ────────────────────────────────────────────────────────────────

  /** A query whose question is a well-formed uncompressed name, QTYPE and QCLASS;
      anything may follow. */
  predicate AsksFor(q: Bytes, labels: Labels) {
    && WellFormedName(labels) && |q| >= HEADER_LEN && NameAt(q, HEADER_LEN, labels)
    && HEADER_LEN + |EncodeName(labels)| + 4 <= |q|
  }

  function QuestionOf(q: Bytes, labels: Labels): Question
    requires AsksFor(q, labels)
  {
    var p := HEADER_LEN + |EncodeName(labels)|;
    Question(labels, U16(q[p], q[p + 1]), U16(q[p + 2], q[p + 3]))
  }

  /** Section 4.1.1: QR says query, OPCODE is standard, and there is a question; the
      other bits of the header, RD among them, may be anything. */
  predicate StandardQuery(q: Bytes) {
    |q| >= 12 && q[2] / 128 == 0 && (q[2] / 8) % 16 == 0 && (q[4] != 0 || q[5] != 0)
  }

  lemma QueryIsStandard(q: Bytes)
    ensures IsQuery(q) <==> StandardQuery(q)
  {
  }

  /** Exactly which queries are answered, for any octets at all: standard ones with
      four octets left where the name stops, whose reply fits a packet. Only the
      types 1, A, and 255, any, add an answer to it. */
  lemma {:induction false} AnyQueryAnsweredIff(q: Bytes, gw: Bytes, labels: Labels)
    requires 12 <= |q| <= 512 && Spellable(labels) && LabelsAt(q, 12, labels)
    requires var p := 12 + |EncodeLabels(labels)|; p < |q| ==> q[p] == 0 || p + 1 + q[p] > |q|
    ensures var stop := StopAfter(q, 12 + |EncodeLabels(labels)|);
            Reply(q, gw).Some? <==>
              && StandardQuery(q) && stop + 4 <= |q|
              && (q[stop] == 0 && (q[stop + 1] == 1 || q[stop + 1] == 255) ==> stop + 4 + 16 <= 512)
  {
    hide Scan;
    hide EncodeLabels;
    ScanReadsLabels(q, 12, labels);
    QueryIsStandard(q);
  }

  /** Among the well-formed queries, the standard ones whose reply fits a packet. */
  lemma {:induction false} AnsweredIff(q: Bytes, gw: Bytes, labels: Labels)
    requires |q| <= 512 && AsksFor(q, labels)
    ensures var size := 12 + |EncodeName(labels)| + 4;
            var qtype := QuestionOf(q, labels).qtype;
            Reply(q, gw).Some? <==> StandardQuery(q) && (qtype == 1 || qtype == 255 ==> size + 16 <= 512)
  {
    hide Scan;
    ScanReadsName(q, HEADER_LEN, labels);
    QueryIsStandard(q);
  }

  /** A name within the 255 octets of section 2.3.4 always fits. */
  lemma LegalNamesAreAnswered(q: Bytes, gw: Bytes, labels: Labels)
    requires |q| <= 512 && AsksFor(q, labels) && |EncodeName(labels)| <= 255
    ensures Reply(q, gw).Some? <==> StandardQuery(q)
  {
    AnsweredIff(q, gw, labels);
  }

  /** The question section of a reply, octet by octet. */
  predicate EchoesQuestion(q: Bytes, msg: Bytes, qend: nat) {
    qend <= |q| && qend <= |msg| && forall j :: HEADER_LEN <= j < qend ==> msg[j] == q[j]
  }

  lemma SameNameInReply(q: Bytes, msg: Bytes, labels: Labels)
    requires AsksFor(q, labels) && EchoesQuestion(q, msg, HEADER_LEN + |EncodeName(labels)| + 4)
    ensures NameAt(msg, HEADER_LEN, labels)
  {
  }

  /** What a reply is made of. */
  lemma ReplyShape(q: Bytes, gw: Bytes, labels: Labels)
    requires |q| <= PACKET_CAPACITY && |gw| == 4 && AsksFor(q, labels) && Reply(q, gw).Some?
    ensures var msg := Reply(q, gw).value;
            var qend := HEADER_LEN + |EncodeName(labels)| + 4;
            var a := IsAddressQuery(QuestionOf(q, labels).qtype);
            && EchoesQuestion(q, msg, qend) && |msg| == qend + (if a then 16 else 0)
            && msg[..HEADER_LEN] == Header(q, a) && (a ==> msg[qend..] == Answer(gw))
  {
    ScanReadsName(q, HEADER_LEN, labels);
    var qend := HEADER_LEN + |EncodeName(labels)| + 4;
    var a := IsAddressQuery(QuestionOf(q, labels).qtype);
    SplitReply(q, qend, Header(q, a), if a then Answer(gw) else []);
  }

  lemma SplitReply(q: Bytes, qend: nat, header: Bytes, tail: Bytes)
    requires HEADER_LEN <= qend <= |q| && |header| == HEADER_LEN
    ensures var msg := header + q[HEADER_LEN..qend] + tail;
            && EchoesQuestion(q, msg, qend) && |msg| == qend + |tail|
            && msg[..HEADER_LEN] == header && msg[qend..] == tail
  {
  }

  lemma HeaderOctets(q: Bytes, msg: Bytes, a: bool)
    requires |q| >= HEADER_LEN && |msg| >= HEADER_LEN && msg[..HEADER_LEN] == Header(q, a)
    ensures msg[0] == q[0] && msg[1] == q[1] && U16(msg[2], msg[3]) == 0x8400 && U16(msg[4], msg[5]) == 1
    ensures U16(msg[6], msg[7]) == (if a then 1 else 0) && U16(msg[8], msg[9]) == 0 && U16(msg[10], msg[11]) == 0
  {
  }

  /** The reply to any answered well-formed query decodes to the same id and
      question, authoritative and without error, and for A and ANY to one address
      record for the very name asked: ANCOUNT is its number of answers, and the
      compression pointer resolves to the question name. */
  lemma ReplyDecodes(q: Bytes, gw: Bytes, labels: Labels)
    requires |q| <= PACKET_CAPACITY && |gw| == 4 && AsksFor(q, labels) && Reply(q, gw).Some?
    ensures DecodeMessage(Reply(q, gw).value)
            == Some(Message(U16(q[0], q[1]), 0x8400, QuestionOf(q, labels),
                            if QuestionOf(q, labels).qtype == 1 || QuestionOf(q, labels).qtype == 255
                            then [Record(labels, 1, 1, 60, gw)] else []))
  {
    hide EncodeName;
    hide DecodeName;
    hide Reply;
    hide DecodeRecord;
    hide Header;
    hide U16;
    var msg := Reply(q, gw).value;
    var a := IsAddressQuery(QuestionOf(q, labels).qtype);
    var qend := HEADER_LEN + |EncodeName(labels)| + 4;
    ReplyShape(q, gw, labels);
    SameNameInReply(q, msg, labels);
    DecodeReadsName(msg, HEADER_LEN, labels, HEADER_LEN);
    HeaderOctets(q, msg, a);
    if a {
      AnswerDecodes(msg, qend, gw, labels);
    }
    assert DecodeRecords(msg, qend, 0) == Some(([], qend));
  }

  lemma AnswerOctets(msg: Bytes, pos: nat, gw: Bytes)
    requires |gw| == 4 && pos + 16 == |msg| && msg[pos..] == Answer(gw)
    ensures msg[pos] == 0xC0 && msg[pos + 1] == 0x0C
    ensures U16(msg[pos + 2], msg[pos + 3]) == 1 && U16(msg[pos + 4], msg[pos + 5]) == 1
    ensures U32(msg, pos + 6) == 60 && U16(msg[pos + 10], msg[pos + 11]) == 4 && msg[pos + 12..] == gw
  {
  }

  lemma AnswerDecodes(msg: Bytes, pos: nat, gw: Bytes, labels: Labels)
    requires |gw| == 4 && WellFormedName(labels) && NameAt(msg, HEADER_LEN, labels) && HEADER_LEN < pos
    requires pos + 16 == |msg| && msg[pos..] == Answer(gw)
    ensures DecodeRecords(msg, pos, 1) == Some(([Record(labels, 1, 1, 60, gw)], |msg|))
  {
    hide EncodeName;
    hide U32;
    DecodeReadsName(msg, HEADER_LEN, labels, HEADER_LEN);
    AnswerOctets(msg, pos, gw);
    assert DecodeName(msg, pos, pos) == Some((labels, pos + 2));
    assert msg[pos + 12..pos + 16] == msg[pos + 12..];
    assert DecodeRecord(msg, pos) == Some((Record(labels, 1, 1, 60, gw), |msg|));
    assert DecodeRecords(msg, |msg|, 0) == Some(([], |msg|));
    var r := Record(labels, 1, 1, 60, gw);
    assert [r] + [] == [r];
    assert DecodeRecords(msg, pos, 1) == Some(([r] + [], |msg|));
  }

  /** Any reply, to a well-formed query or not: it fits a packet, repeats the id,
      starts its question with the query's own octets, and is itself never
      replied to, so two responders cannot answer each other. */
  lemma RepliesAreFinal(q: Bytes, gw: Bytes, other: Bytes)
    requires |q| <= PACKET_CAPACITY && |gw| == 4 && Reply(q, gw).Some?
    ensures var msg := Reply(q, gw).value;
            && HEADER_LEN + 4 <= |msg| <= PACKET_CAPACITY && msg[..2] == q[..2]
            && (exists qend :: HEADER_LEN + 4 <= qend <= |q| && qend <= |msg| && msg[HEADER_LEN..qend] == q[HEADER_LEN..qend]
                  && |msg| == qend + (if U16(msg[6], msg[7]) == 1 then 16 else 0))
            && Reply(msg, other) == None
  {
  }
}
