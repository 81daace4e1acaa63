/**
 Packed DNS messages (sections 4.1.1 to 4.1.4 of RFC 1035): the byte layout written out,
 and the walker of internal/cache/cache.go that finds the TTL fields of the answers.
 Names and RDATA stay in their packed form.
 */
module Wire {
  import opened Common

  type Octets = seq<Byte>

  const UINT32: nat := 0x1_0000_0000

  // ----- the layout ------------------------------------------------------------------

  /** A run of length-prefixed labels ended by a zero octet or a two-octet pointer. */
  predicate IsName(s: Octets)
    decreases |s|
  {
    && s != []
    && if s[0] >= 0xC0 then |s| == 2
       else if s[0] == 0 then |s| == 1
       else |s| > 1 + s[0] as int && IsName(s[1 + s[0] as int..])
  }

  datatype Question = Question(name: Octets, typeClass: Octets) {
    predicate Ok() { IsName(name) && |typeClass| == 4 }
    function Packed(): Octets { name + typeClass }
  }

  datatype RR = RR(name: Octets, typeClass: Octets, ttl: nat, rdata: Octets) {
    predicate Ok() { IsName(name) && |typeClass| == 4 && ttl < UINT32 && |rdata| < 0x1_0000 }
    function Packed(): Octets {
      name + typeClass + Bytes(ttl, 4) + Bytes(|rdata|, 2) + rdata
    }
    function Size(): nat { |name| + 10 + |rdata| }
  }

  /** Authority and additional records, with their counts, ride along unread. */
  datatype Message = Message(id: nat, flags: Octets, counts: Octets, questions: seq<Question>, answers: seq<RR>, tail: Octets) {
    predicate Ok() {
      && id < 0x1_0000 && |flags| == 2 && |counts| == 4
      && |questions| < 0x1_0000 && |answers| < 0x1_0000
      && (forall i :: 0 <= i < |questions| ==> questions[i].Ok())
      && (forall i :: 0 <= i < |answers| ==> answers[i].Ok())
    }
    function Header(): (h: Octets)
      requires |flags| == 2 && |counts| == 4
      ensures |h| == 12
    {
      Bytes(id, 2) + flags + Bytes(|questions|, 2) + Bytes(|answers|, 2) + counts
    }
    function Packed(): Octets
      requires |flags| == 2 && |counts| == 4
    {
      Header() + PackedQuestions(questions) + PackedAnswers(answers) + tail
    }
  }

  function PackedQuestions(qs: seq<Question>): Octets {
    if qs == [] then [] else qs[0].Packed() + PackedQuestions(qs[1..])
  }

  function PackedAnswers(rrs: seq<RR>): Octets {
    if rrs == [] then [] else rrs[0].Packed() + PackedAnswers(rrs[1..])
  }

  // ----- reading it ------------------------------------------------------------------

  /** skipPackedName: the offset just past the name at `off`. */
  function SkipName(msg: Octets, off: nat): (r: Option<nat>)
    ensures r.Some? ==> off < r.value <= |msg|
    decreases |msg| - off
  {
    if off >= |msg| then None
    else if msg[off] >= 0xC0 then (if off + 2 > |msg| then None else Some(off + 2))
    else if msg[off] == 0 then Some(off + 1)
    else if off + 1 + msg[off] as int > |msg| then None
    else SkipName(msg, off + 1 + msg[off] as int)
  }

  /** The walk finds a name exactly where there is one. */
  lemma {:induction false} SkipNameIff(msg: Octets, off: nat, n: nat)
    requires off <= n <= |msg|
    ensures SkipName(msg, off) == Some(n) <==> IsName(msg[off..n])
    decreases |msg| - off
  {
    var s := msg[off..n];
    if off < n {
      assert s[0] == msg[off];
      if 0 < msg[off] < 0xC0 {
        var next := off + 1 + msg[off] as int;
        if next <= n {
          assert s[1 + msg[off] as int..] == msg[next..n];
          SkipNameIff(msg, next, n);
        }
      }
    }
  }

  /** The record at `off`, and where the next one starts. */
  function ReadRR(msg: Octets, off: nat): (r: Option<(RR, nat)>)
    ensures r.Some? ==> off < r.value.1 <= |msg| && r.value.1 == off + r.value.0.Size()
  {
    match SkipName(msg, off)
    case None => None
    case Some(n) =>
      if n + 10 > |msg| then None else
        var end := n + 10 + Value(msg[n + 8..n + 10]);
        if end > |msg| then None
        else Some((RR(msg[off..n], msg[n..n + 4], Value(msg[n + 4..n + 8]), msg[n + 10..end]), end))
  }

  function ReadQuestion(msg: Octets, off: nat): (r: Option<(Question, nat)>)
    ensures r.Some? ==> off < r.value.1 <= |msg|
  {
    match SkipName(msg, off)
    case None => None
    case Some(n) => if n + 4 > |msg| then None else Some((Question(msg[off..n], msg[n..n + 4]), n + 4))
  }

  function ReadQuestions(msg: Octets, off: nat, n: nat): (r: Option<(seq<Question>, nat)>)
    requires off <= |msg|
    ensures r.Some? ==> |r.value.0| == n && off <= r.value.1 <= |msg|
    decreases n
  {
    if n == 0 then Some(([], off)) else
      match ReadQuestion(msg, off)
      case None => None
      case Some((q, next)) =>
        match ReadQuestions(msg, next, n - 1)
        case None => None
        case Some((qs, end)) => Some(([q] + qs, end))
  }

  function ReadAnswers(msg: Octets, off: nat, n: nat): (r: Option<(seq<RR>, nat)>)
    requires off <= |msg|
    ensures r.Some? ==> |r.value.0| == n && off <= r.value.1 <= |msg|
    decreases n
  {
    if n == 0 then Some(([], off)) else
      match ReadRR(msg, off)
      case None => None
      case Some((rr, next)) =>
        match ReadAnswers(msg, next, n - 1)
        case None => None
        case Some((rrs, end)) => Some(([rr] + rrs, end))
  }

  function Count(msg: Octets, off: nat): nat
    requires off + 2 <= |msg|
  {
    Value(msg[off..off + 2])
  }

  /** The message a packet spells, if its header, questions and answers are all there. */
  function Parse(msg: Octets): Option<Message> {
    if |msg| < 12 then None else
      match ReadQuestions(msg, 12, Count(msg, 4))
      case None => None
      case Some((qs, mid)) =>
        match ReadAnswers(msg, mid, Count(msg, 6))
        case None => None
        case Some((rrs, end)) => Some(Message(Count(msg, 0), msg[2..4], msg[8..12], qs, rrs, msg[end..]))
  }

  // ----- reading is the inverse of writing ----------------------------------------------

  lemma Value2(b: Octets)
    requires |b| == 2
    ensures Bytes(Value(b), 2) == b && Value(b) < 0x1_0000
  {
    BytesOfValue(b);
    assert Pow256(2) == 0x1_0000;
  }

  lemma Value4(b: Octets)
    requires |b| == 4
    ensures Bytes(Value(b), 4) == b && Value(b) < UINT32
  {
    BytesOfValue(b);
    assert Pow256(4) == UINT32;
  }

  lemma BytesBack(v: nat, n: nat)
    requires (n == 2 && v < 0x1_0000) || (n == 4 && v < UINT32)
    ensures Value(Bytes(v, n)) == v
  {
    assert Pow256(2) == 0x1_0000 && Pow256(4) == UINT32;
    ValueOfBytes(v, n);
  }

  lemma RRWritten(msg: Octets, off: nat)
    requires ReadRR(msg, off).Some?
    ensures var (rr, end) := ReadRR(msg, off).value;
            rr.Ok() && msg[off..end] == rr.Packed()
  {
    var n := SkipName(msg, off).value;
    SkipNameIff(msg, off, n);
    RRLayout(msg, off, n, n + 10 + Value(msg[n + 8..n + 10]));
  }

  lemma RRLayout(msg: Octets, off: nat, n: nat, end: nat)
    requires off <= n && n + 10 <= end <= |msg| && end == n + 10 + Value(msg[n + 8..n + 10])
    ensures var rr := RR(msg[off..n], msg[n..n + 4], Value(msg[n + 4..n + 8]), msg[n + 10..end]);
            rr.ttl < UINT32 && |rr.rdata| < 0x1_0000 && msg[off..end] == rr.Packed()
  {
    Value2(msg[n + 8..n + 10]);
    Value4(msg[n + 4..n + 8]);
    FiveParts(msg, off, n, n + 4, n + 8, n + 10, end);
  }

  lemma FiveParts(s: Octets, a: nat, b: nat, c: nat, d: nat, e: nat, f: nat)
    requires a <= b <= c <= d <= e <= f <= |s|
    ensures s[a..f] == s[a..b] + s[b..c] + s[c..d] + s[d..e] + s[e..f]
  {
    assert s[a..c] == s[a..b] + s[b..c];
    assert s[a..d] == s[a..c] + s[c..d];
    assert s[a..e] == s[a..d] + s[d..e];
    assert s[a..f] == s[a..e] + s[e..f];
  }

  lemma QuestionWritten(msg: Octets, off: nat)
    requires ReadQuestion(msg, off).Some?
    ensures var (q, end) := ReadQuestion(msg, off).value;
            q.Ok() && msg[off..end] == q.Packed()
  {
    var n := SkipName(msg, off).value;
    SkipNameIff(msg, off, n);
  }

  lemma {:induction false} QuestionsWritten(msg: Octets, off: nat, n: nat)
    requires off <= |msg| && ReadQuestions(msg, off, n).Some?
    ensures var (qs, end) := ReadQuestions(msg, off, n).value;
            (forall i :: 0 <= i < |qs| ==> qs[i].Ok()) && msg[off..end] == PackedQuestions(qs)
    decreases n
  {
    if n > 0 {
      var (q, next) := ReadQuestion(msg, off).value;
      var (rest, end) := ReadQuestions(msg, next, n - 1).value;
      QuestionWritten(msg, off);
      QuestionsWritten(msg, next, n - 1);
      assert ([q] + rest)[1..] == rest;
      assert msg[off..end] == msg[off..next] + msg[next..end];
    }
  }

  lemma {:induction false} AnswersWritten(msg: Octets, off: nat, n: nat)
    requires off <= |msg| && ReadAnswers(msg, off, n).Some?
    ensures var (rrs, end) := ReadAnswers(msg, off, n).value;
            (forall i :: 0 <= i < |rrs| ==> rrs[i].Ok()) && msg[off..end] == PackedAnswers(rrs)
    decreases n
  {
    if n > 0 {
      var (rr, next) := ReadRR(msg, off).value;
      var (rest, end) := ReadAnswers(msg, next, n - 1).value;
      RRWritten(msg, off);
      AnswersWritten(msg, next, n - 1);
      PackFirst(rr, rest, msg, off, next, end);
    }
  }

  lemma PackFirst(rr: RR, rest: seq<RR>, msg: Octets, off: nat, next: nat, end: nat)
    requires off <= next <= end <= |msg|
    requires msg[off..next] == rr.Packed() && msg[next..end] == PackedAnswers(rest)
    ensures PackedAnswers([rr] + rest) == msg[off..end]
  {
    assert ([rr] + rest)[1..] == rest;
    assert msg[off..end] == msg[off..next] + msg[next..end];
  }

  /** What a packet parses to is what was packed: nothing is lost. */
  lemma PackedAsParsed(msg: Octets)
    requires Parse(msg).Some?
    ensures Parse(msg).value.Ok() && Parse(msg).value.Packed() == msg
  {
    var m := Parse(msg).value;
    var (qs, mid) := ReadQuestions(msg, 12, Count(msg, 4)).value;
    var (rrs, end) := ReadAnswers(msg, mid, Count(msg, 6)).value;
    QuestionsWritten(msg, 12, Count(msg, 4));
    AnswersWritten(msg, mid, Count(msg, 6));
    HeaderWritten(msg, m);
    FourParts(msg, 12, mid, end);
  }

  lemma FourParts(s: Octets, a: nat, b: nat, c: nat)
    requires a <= b <= c <= |s|
    ensures s == s[..a] + s[a..b] + s[b..c] + s[c..]
  {
  }

  lemma HeaderWritten(msg: Octets, m: Message)
    requires |msg| >= 12 && m.id == Count(msg, 0) && m.flags == msg[2..4] && m.counts == msg[8..12]
    requires |m.questions| == Count(msg, 4) && |m.answers| == Count(msg, 6)
    ensures m.Header() == msg[..12] && m.id < 0x1_0000 && |m.questions| < 0x1_0000 && |m.answers| < 0x1_0000
  {
    Value2(msg[0..2]);
    Value2(msg[4..6]);
    Value2(msg[6..8]);
    FiveParts(msg[..12], 0, 2, 4, 6, 8, 12);
    assert msg[..12][0..12] == msg[..12];
    assert msg[..12][0..2] == msg[0..2] && msg[..12][2..4] == msg[2..4] && msg[..12][4..6] == msg[4..6];
    assert msg[..12][6..8] == msg[6..8] && msg[..12][8..12] == msg[8..12];
  }

  /** `s` stands in `msg` at `off`. */
  predicate StandsAt(msg: Octets, off: nat, s: Octets) {
    off + |s| <= |msg| && msg[off..off + |s|] == s
  }

  lemma Part(msg: Octets, off: nat, s: Octets, i: nat, j: nat)
    requires StandsAt(msg, off, s) && i <= j <= |s|
    ensures msg[off + i..off + j] == s[i..j]
  {
    var t := msg[off..off + |s|];
    forall k | 0 <= k < j - i
      ensures msg[off + i..off + j][k] == s[i..j][k]
    {
      assert t[i + k] == msg[off + (i + k)];
    }
  }

  lemma Parts(msg: Octets, off: nat, a: Octets, b: Octets)
    requires StandsAt(msg, off, a + b)
    ensures StandsAt(msg, off, a) && StandsAt(msg, off + |a|, b)
  {
    Part(msg, off, a + b, 0, |a|);
    Part(msg, off, a + b, |a|, |a + b|);
  }

  lemma RRFields(rr: RR)
    requires rr.Ok()
    ensures var p, n := rr.Packed(), |rr.name|;
            && |p| == n + 10 + |rr.rdata|
            && p[..n] == rr.name
            && p[n..n + 4] == rr.typeClass
            && Value(p[n + 4..n + 8]) == rr.ttl
            && Value(p[n + 8..n + 10]) == |rr.rdata|
            && p[n + 10..] == rr.rdata
  {
    var p, n := rr.Packed(), |rr.name|;
    BytesBack(rr.ttl, 4);
    BytesBack(|rr.rdata|, 2);
    assert p[n + 4..n + 8] == Bytes(rr.ttl, 4);
    assert p[n + 8..n + 10] == Bytes(|rr.rdata|, 2);
  }

  /** A record standing in a packet is read there. */
  lemma RRRead(msg: Octets, off: nat, rr: RR)
    requires rr.Ok() && StandsAt(msg, off, rr.Packed())
    ensures ReadRR(msg, off) == Some((rr, off + |rr.Packed()|))
  {
    var p := rr.Packed();
    RRFields(rr);
    RRFromParts(msg, off, p, |rr.name|, rr);
  }

  lemma RRFromParts(msg: Octets, off: nat, p: Octets, n: nat, rr: RR)
    requires StandsAt(msg, off, p) && |p| == n + 10 + |rr.rdata|
    requires IsName(p[..n]) && rr.name == p[..n] && rr.typeClass == p[n..n + 4]
    requires rr.ttl == Value(p[n + 4..n + 8]) && |rr.rdata| == Value(p[n + 8..n + 10]) && rr.rdata == p[n + 10..]
    ensures ReadRR(msg, off) == Some((rr, off + |p|))
  {
    NameAt(msg, off, p, n);
    Part(msg, off, p, n, n + 4);
    Part(msg, off, p, n + 4, n + 8);
    Part(msg, off, p, n + 8, n + 10);
    Part(msg, off, p, n + 10, |p|);
    ReadRRFrom(msg, off, off + n, rr);
  }

  lemma NameAt(msg: Octets, off: nat, p: Octets, n: nat)
    requires StandsAt(msg, off, p) && n <= |p| && IsName(p[..n])
    ensures msg[off..off + n] == p[..n] && SkipName(msg, off) == Some(off + n)
  {
    Part(msg, off, p, 0, n);
    SkipNameIff(msg, off, off + n);
  }

  lemma ReadRRFrom(msg: Octets, off: nat, n: nat, rr: RR)
    requires SkipName(msg, off) == Some(n) && n + 10 + |rr.rdata| <= |msg|
    requires msg[off..n] == rr.name && msg[n..n + 4] == rr.typeClass && Value(msg[n + 4..n + 8]) == rr.ttl
    requires Value(msg[n + 8..n + 10]) == |rr.rdata| && msg[n + 10..n + 10 + |rr.rdata|] == rr.rdata
    ensures ReadRR(msg, off) == Some((rr, n + 10 + |rr.rdata|))
  {
  }

  lemma QuestionRead(msg: Octets, off: nat, q: Question)
    requires q.Ok() && StandsAt(msg, off, q.Packed())
    ensures ReadQuestion(msg, off) == Some((q, off + |q.Packed()|))
  {
    Parts(msg, off, q.name, q.typeClass);
    SkipNameIff(msg, off, off + |q.name|);
  }

  lemma ReadQuestionsStep(msg: Octets, off: nat, qs: seq<Question>, next: nat, end: nat)
    requires qs != [] && off <= |msg| && ReadQuestion(msg, off) == Some((qs[0], next))
    requires ReadQuestions(msg, next, |qs[1..]|) == Some((qs[1..], end))
    ensures ReadQuestions(msg, off, |qs|) == Some((qs, end))
  {
    assert [qs[0]] + qs[1..] == qs;
  }

  lemma ReadAnswersStep(msg: Octets, off: nat, rrs: seq<RR>, next: nat, end: nat)
    requires rrs != [] && off <= |msg| && ReadRR(msg, off) == Some((rrs[0], next))
    requires ReadAnswers(msg, next, |rrs[1..]|) == Some((rrs[1..], end))
    ensures ReadAnswers(msg, off, |rrs|) == Some((rrs, end))
  {
    assert [rrs[0]] + rrs[1..] == rrs;
  }

  /** The first question, or record, stands first and the others after it. */
  lemma FirstQuestion(msg: Octets, off: nat, qs: seq<Question>)
    requires qs != [] && qs[0].Ok() && StandsAt(msg, off, PackedQuestions(qs))
    ensures var next := off + |qs[0].Packed()|;
            && ReadQuestion(msg, off) == Some((qs[0], next))
            && StandsAt(msg, next, PackedQuestions(qs[1..]))
            && off + |PackedQuestions(qs)| == next + |PackedQuestions(qs[1..])|
  {
    Parts(msg, off, qs[0].Packed(), PackedQuestions(qs[1..]));
    QuestionRead(msg, off, qs[0]);
  }

  lemma FirstAnswer(msg: Octets, off: nat, rrs: seq<RR>)
    requires rrs != [] && rrs[0].Ok() && StandsAt(msg, off, PackedAnswers(rrs))
    ensures var next := off + |rrs[0].Packed()|;
            && ReadRR(msg, off) == Some((rrs[0], next))
            && StandsAt(msg, next, PackedAnswers(rrs[1..]))
            && off + |PackedAnswers(rrs)| == next + |PackedAnswers(rrs[1..])|
  {
    PackedFirst(rrs);
    Parts(msg, off, rrs[0].Packed(), PackedAnswers(rrs[1..]));
    RRRead(msg, off, rrs[0]);
  }

  lemma PackedFirst(rrs: seq<RR>)
    requires rrs != []
    ensures PackedAnswers(rrs) == rrs[0].Packed() + PackedAnswers(rrs[1..])
    ensures |PackedAnswers(rrs)| == |rrs[0].Packed()| + |PackedAnswers(rrs[1..])|
  {
  }

  lemma {:induction false} QuestionsRead(msg: Octets, off: nat, qs: seq<Question>, end: nat)
    requires forall i :: 0 <= i < |qs| ==> qs[i].Ok()
    requires StandsAt(msg, off, PackedQuestions(qs)) && end == off + |PackedQuestions(qs)|
    ensures ReadQuestions(msg, off, |qs|) == Some((qs, end))
    decreases |qs|
  {
    if qs != [] {
      FirstQuestion(msg, off, qs);
      var next := ReadQuestion(msg, off).value.1;
      QuestionsRead(msg, next, qs[1..], end);
      ReadQuestionsStep(msg, off, qs, next, end);
    }
  }

  lemma {:induction false} AnswersRead(msg: Octets, off: nat, rrs: seq<RR>, end: nat)
    requires forall i :: 0 <= i < |rrs| ==> rrs[i].Ok()
    requires StandsAt(msg, off, PackedAnswers(rrs)) && end == off + |PackedAnswers(rrs)|
    ensures ReadAnswers(msg, off, |rrs|) == Some((rrs, end))
    decreases |rrs|
  {
    if rrs != [] {
      FirstAnswer(msg, off, rrs);
      var next := ReadRR(msg, off).value.1;
      AnswersRead(msg, next, rrs[1..], end);
      ReadAnswersStep(msg, off, rrs, next, end);
    }
  }

  lemma Sections(m: Message)
    requires m.Ok()
    ensures var s := m.Packed();
            var q, a := PackedQuestions(m.questions), PackedAnswers(m.answers);
            && |s| == 12 + |q| + |a| + |m.tail|
            && StandsAt(s, 0, m.Header()) && StandsAt(s, 12, q) && StandsAt(s, 12 + |q|, a)
            && s[12 + |q| + |a|..] == m.tail
  {
    var s := m.Packed();
    var h, q, a := m.Header(), PackedQuestions(m.questions), PackedAnswers(m.answers);
    assert StandsAt(s, 0, h + q + a);
    Parts(s, 0, h + q, a);
    Parts(s, 0, h, q);
  }

  /** Packing a message and parsing it gives the message back. */
  lemma ParsedAsPacked(m: Message)
    requires m.Ok()
    ensures Parse(m.Packed()) == Some(m)
  {
    var s := m.Packed();
    Sections(m);
    HeaderRead(m);
    var mid := 12 + |PackedQuestions(m.questions)|;
    QuestionsRead(s, 12, m.questions, mid);
    AnswersRead(s, mid, m.answers, mid + |PackedAnswers(m.answers)|);
  }

  lemma HeaderRead(m: Message)
    requires m.Ok()
    ensures var s := m.Packed();
            && |s| >= 12 && Count(s, 0) == m.id && s[2..4] == m.flags
            && Count(s, 4) == |m.questions| && Count(s, 6) == |m.answers| && s[8..12] == m.counts
  {
    var s, h := m.Packed(), m.Header();
    BytesBack(m.id, 2);
    BytesBack(|m.questions|, 2);
    BytesBack(|m.answers|, 2);
    assert s[..12] == h;
    assert s[0..2] == h[0..2] == Bytes(m.id, 2);
    assert s[2..4] == h[2..4] == m.flags;
    assert s[4..6] == h[4..6] == Bytes(|m.questions|, 2);
    assert s[6..8] == h[6..8] == Bytes(|m.answers|, 2);
    assert s[8..12] == h[8..12] == m.counts;
  }
}
