/** The captive-portal DNS responder: scanning a query's name and building the
    reply, byte by byte. */
module Dns {
  import opened Prelude

  type Bytes = seq<Byte>

  const HEADER_LEN: nat := 12
  const NAME_CAPACITY: nat := 128
  const PACKET_CAPACITY: nat := 512
  const DOT: Byte := 46

  function U16(hi: Byte, lo: Byte): nat {
    hi * 256 + lo
  }

  // ── What the loop computes ─────────────────────────────────────────────────

  /** The name buffer when a label begins: a dot goes between labels, if it fits. */
  function WithDot(name: Bytes): Bytes {
    if 0 < |name| < NAME_CAPACITY then name + [DOT] else name
  }

  /** As much of a label as fits. */
  function WithLabel(name: Bytes, part: Bytes): Bytes {
    name + part[..Min(|part|, if |name| < NAME_CAPACITY then NAME_CAPACITY - |name| else 0)]
  }

  /** The scan from `pos` with `name` already collected: where it stops, and the name. */
  function Scan(q: Bytes, pos: nat, name: Bytes): (r: (nat, Bytes))
    requires pos <= |q|
    ensures pos <= r.0 <= |q|
    ensures |name| <= NAME_CAPACITY ==> |r.1| <= NAME_CAPACITY
    decreases |q| - pos
  {
    if pos >= |q| then (pos, name)
    else
      var len := q[pos];
      if len == 0 then (pos + 1, name)
      else if pos + 1 + len > |q| then (pos + 1, WithDot(name))
      else Scan(q, pos + 1 + len, WithLabel(WithDot(name), q[pos + 1..pos + 1 + len]))
  }

  predicate IsAddressQuery(qtype: nat) {
    qtype == 1 || qtype == 255
  }

  function Header(q: Bytes, answered: bool): Bytes
    requires |q| >= HEADER_LEN
  {
    q[..2] + [0x84, 0, 0, 1, 0, if answered then 1 else 0, 0, 0, 0, 0]
  }

  function Answer(gw: Bytes): Bytes {
    [0xC0, 0x0C, 0, 1, 0, 1, 0, 0, 0, 60, 0, 4] + gw
  }

  /** A standard query: QR and Opcode are clear, and there is a question. */
  predicate IsQuery(q: Bytes) {
    |q| >= HEADER_LEN && U16(q[2], q[3]) < 0x0800 && U16(q[4], q[5]) != 0
  }

  function Reply(q: Bytes, gw: Bytes): Option<Bytes> {
    if !IsQuery(q) then None
    else
      var qpos := Scan(q, HEADER_LEN, []).0;
      var qend := qpos + 4;
      if qend > |q| || qend > PACKET_CAPACITY then None
      else
        var a := IsAddressQuery(U16(q[qpos], q[qpos + 1]));
        if a && qend + 16 > PACKET_CAPACITY then None
        else Some(Header(q, a) + q[HEADER_LEN..qend] + (if a then Answer(gw) else []))
  }

  // ── The responder ──────────────────────────────────────────────────────────

  /** Copies bytes into a buffer at a position. */
  method CopyInto(buf: array<Byte>, at: nat, bytes: Bytes)
    requires at + |bytes| <= buf.Length
    modifies buf
    ensures buf[..at + |bytes|] == old(buf[..at]) + bytes
    ensures buf[at + |bytes|..] == old(buf[at + |bytes|..])
  {
    for i := 0 to |bytes|
      invariant buf[..at + i] == old(buf[..at]) + bytes[..i]
      invariant buf[at + i..] == old(buf[at + i..])
    {
      buf[at + i] := bytes[i];
      assert buf[at + i + 1..] == buf[at + i..][1..];
    }
  }

  /** One label of the scan. */
  lemma ScanStep(q: Bytes, pos: nat, name: Bytes)
    requires pos < |q|
    ensures var len := q[pos];
            Scan(q, pos, name) ==
              if len == 0 then (pos + 1, name)
              else if pos + 1 + len > |q| then (pos + 1, WithDot(name))
              else Scan(q, pos + 1 + len, WithLabel(WithDot(name), q[pos + 1..pos + 1 + len]))
  {
  }

  lemma ScanEnd(q: Bytes, name: Bytes)
    ensures Scan(q, |q|, name) == (|q|, name)
  {
  }

  lemma LabelClipped(q: Bytes, at: nat, len: nat, copied: nat, name: Bytes)
    requires at + len <= |q| && |name| <= NAME_CAPACITY && copied == Min(|name| + len, NAME_CAPACITY) - |name|
    ensures name + q[at..at + copied] == WithLabel(name, q[at..at + len])
  {
  }

  /** The scan loop; every index it uses is in bounds, for any query. */
  method ScanName(query: Bytes, nameBuf: array<Byte>) returns (qpos: nat, nameLen: nat)
    requires |query| >= HEADER_LEN && nameBuf.Length == NAME_CAPACITY
    modifies nameBuf
    ensures nameLen <= NAME_CAPACITY && (qpos, nameBuf[..nameLen]) == Scan(query, HEADER_LEN, [])
    ensures HEADER_LEN <= qpos <= |query|
  {
    hide Scan;
    hide WithDot;
    hide WithLabel;
    qpos, nameLen := HEADER_LEN, 0;
    assert nameBuf[..0] == [];
    while qpos < |query|
      invariant HEADER_LEN <= qpos <= |query| && nameLen <= NAME_CAPACITY
      invariant Scan(query, qpos, nameBuf[..nameLen]) == Scan(query, HEADER_LEN, [])
      decreases |query| - qpos
    {
      ghost var name := nameBuf[..nameLen];
      ghost var start := qpos;
      ScanStep(query, start, name);
      var labelLen := query[qpos];
      qpos := qpos + 1;
      if labelLen == 0 {
        return;
      }
      nameLen := AppendDot(nameBuf, nameLen);
      if qpos + labelLen > |query| {
        return;
      }
      var copyEnd := Min(nameLen + labelLen, nameBuf.Length);
      var toCopy := copyEnd - nameLen;
      LabelClipped(query, qpos, labelLen, toCopy, nameBuf[..nameLen]);
      CopyInto(nameBuf, nameLen, query[qpos..qpos + toCopy]);
      nameLen := copyEnd;
      qpos := qpos + labelLen;
    }
    ScanEnd(query, nameBuf[..nameLen]);
  }

  /** The separator before a label, unless the name is empty or the buffer full. */
  method AppendDot(nameBuf: array<Byte>, nameLen: nat) returns (nameLen': nat)
    requires nameLen <= NAME_CAPACITY == nameBuf.Length
    modifies nameBuf
    ensures nameLen' <= NAME_CAPACITY && nameBuf[..nameLen'] == WithDot(old(nameBuf[..nameLen]))
  {
    nameLen' := nameLen;
    if nameLen > 0 && nameLen < nameBuf.Length {
      nameBuf[nameLen] := DOT;
      nameLen' := nameLen + 1;
    }
  }

  /** One round of the responder: a received packet and what is sent back. */
  method Respond(query: Bytes, gw: Bytes) returns (sent: Option<Bytes>)
    requires |query| <= PACKET_CAPACITY && |gw| == 4
    ensures sent == Reply(query, gw)
  {
    if |query| < HEADER_LEN {
      return None;
    }
    var flags := U16(query[2], query[3]);
    var qdcount := U16(query[4], query[5]);
    if flags >= 0x0800 || qdcount == 0 {
      return None;
    }
    var nameBuf := new Byte[NAME_CAPACITY](_ => 0);
    var qpos, nameLen := ScanName(query, nameBuf);
    var qend := qpos + 4;
    if qend > |query| {
      return None;
    }
    var qtype := U16(query[qpos], query[qpos + 1]);
    var respondWithA := qtype == 1 || qtype == 255;

    var resp := new Byte[PACKET_CAPACITY](_ => 0);
    var pos := HEADER_LEN;
    WriteHeader(resp, query, respondWithA);

    // Echo the question section verbatim.
    var qsection := query[HEADER_LEN..qend];
    if pos + |qsection| > resp.Length {
      return None;
    }
    CopyInto(resp, pos, qsection);
    pos := pos + |qsection|;
    assert resp[..pos] == Header(query, respondWithA) + qsection;

    if respondWithA {
      if pos + 16 > resp.Length {
        return None;
      }
      pos := WriteAnswer(resp, pos, gw);
    }
    assert !respondWithA ==> resp[..pos] == Header(query, false) + qsection + [];
    sent := Some(resp[..pos]);
  }

  method WriteHeader(resp: array<Byte>, query: Bytes, answered: bool)
    requires resp.Length >= HEADER_LEN && |query| >= HEADER_LEN
    modifies resp
    ensures resp[..HEADER_LEN] == Header(query, answered)
  {
    CopyInto(resp, 0, query[0..2]);
    CopyInto(resp, 2, [0x84, 0x00]);                          // QR, AA, RCODE 0
    CopyInto(resp, 4, [0, 1]);                                // QDCOUNT
    CopyInto(resp, 6, [0, if answered then 1 else 0]);        // ANCOUNT
    assert resp[..8] == query[0..2] + [0x84, 0x00] + [0, 1] + [0, if answered then 1 else 0];
    CopyInto(resp, 8, [0, 0]);                                // NSCOUNT
    CopyInto(resp, 10, [0, 0]);                               // ARCOUNT
  }

  method WriteAnswer(resp: array<Byte>, start: nat, gw: Bytes) returns (pos: nat)
    requires start + 16 <= resp.Length && |gw| == 4
    modifies resp
    ensures pos == start + 16 && resp[..pos] == old(resp[..start]) + Answer(gw)
  {
    ghost var front := resp[..start];
    pos := start;
    CopyInto(resp, pos, [0xC0, 0x0C]);                        // pointer to offset 12
    pos := pos + 2;
    CopyInto(resp, pos, [0, 1]);                              // TYPE A
    pos := pos + 2;
    CopyInto(resp, pos, [0, 1]);                              // CLASS IN
    pos := pos + 2;
    CopyInto(resp, pos, [0, 0, 0, 60]);                       // TTL
    pos := pos + 4;
    CopyInto(resp, pos, [0, 4]);                              // RDLENGTH
    pos := pos + 2;
    CopyInto(resp, pos, gw);                                  // RDATA
    pos := pos + 4;
    AnswerParts(front, gw);
  }

  lemma AnswerParts(front: Bytes, gw: Bytes)
    ensures front + [0xC0, 0x0C] + [0, 1] + [0, 1] + [0, 0, 0, 60] + [0, 4] + gw == front + Answer(gw)
  {
  }
}
