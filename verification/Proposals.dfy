/**
 The proposal exchange on the wire: a block of proposals with its checksum, and the answer line.
 */
module Proposals {
  import opened Common
  import opened Text
  import opened Mailbox
  import Session

  /** What a proposal line carries. */
  datatype Proposal = Proposal(code: char, msgType: string, mid: Mid, size: int, compressedSize: int)

  function Line(p: Proposal): (s: string)
    requires p.size >= 0 && p.compressedSize >= 0
  {
    "F" + [p.code] + " " + p.msgType + " " + p.mid + " " + Dec(p.size) + " " + Dec(p.compressedSize) + " " + Dec(0)
  }

  /** Proposals of type C and D; types A and B are recognised and not looked into. */
  function Parse(line: string): (p: Option<Proposal>)
    requires |line| >= 2
  {
    if line[1] == 'A' || line[1] == 'B' then Some(Proposal(line[1], [], [], 0, 0))
    else if (line[1] != 'C' && line[1] != 'D') || |line| < 4 then None
    else
      var parts := Split(line[3..]);
      if |parts| != 5 || (parts[0] != "EM" && parts[0] != "CM") then None
      else Some(Proposal(line[1], parts[0], parts[1], Number(parts[2]), Number(parts[3])))
  }

  /** A proposal as a sender makes it. */
  ghost predicate WellFormed(p: Proposal) {
    && (p.code == 'C' || p.code == 'D') && (p.msgType == "EM" || p.msgType == "CM")
    && NoSpace(p.mid) && '\r' !in p.mid && 0 <= p.size <= MAX_INT && 0 <= p.compressedSize <= MAX_INT
  }

  lemma DecNoSpace(n: nat)
    ensures NoSpace(Dec(n)) && '\r' !in Dec(n)
  {
  }

  lemma FiveFields(a: string, b: string, c: string, d: string, e: string)
    requires NoSpace(a) && NoSpace(b) && NoSpace(c) && NoSpace(d) && NoSpace(e)
    ensures Split(a + " " + b + " " + c + " " + d + " " + e) == [a, b, c, d, e]
  {
    hide Split;
    SplitLast(e);
    SplitField(d, e);
    SplitField(c, d + " " + e);
    SplitField(b, c + " " + (d + " " + e));
    SplitField(a, b + " " + (c + " " + (d + " " + e)));
    assert a + " " + b + " " + c + " " + d + " " + e == a + " " + (b + " " + (c + " " + (d + " " + e)));
  }

  /** A proposal line is parsed to the proposal it was made from. */
  lemma ParseLine(p: Proposal)
    requires WellFormed(p)
    ensures Parse(Line(p)) == Some(p)
  {
    hide Split, Dec, Number, Atoi;
    var (c, d, e) := (Dec(p.size), Dec(p.compressedSize), Dec(0));
    DecNoSpace(p.size);
    DecNoSpace(p.compressedSize);
    DecNoSpace(0);
    AtoiDec(p.size);
    AtoiDec(p.compressedSize);
    var fields := p.msgType + " " + p.mid + " " + c + " " + d + " " + e;
    assert Line(p)[3..] == fields;
    FiveFields(p.msgType, p.mid, c, d, e);
  }

  // A block of proposals.

  ghost predicate Sized(ps: seq<Proposal>) {
    forall p :: p in ps ==> p.size >= 0 && p.compressedSize >= 0
  }

  function Lines(ps: seq<Proposal>): (s: string)
    requires Sized(ps)
  {
    if ps == [] then [] else Lines(ps[..|ps| - 1]) + Line(ps[|ps| - 1]) + "\r"
  }

  function Total(ps: seq<Proposal>): (n: nat)
    requires Sized(ps)
  {
    if ps == [] then 0 else Total(ps[..|ps| - 1]) + CharSum(Line(ps[|ps| - 1])) + 13
  }

  /** The low byte of -n. */
  function Checksum(n: nat): (c: nat)
    ensures c < 256 && (n + c) % 256 == 0
  {
    (256 - n % 256) % 256
  }

  function Wire(ps: seq<Proposal>): (s: string)
    requires Sized(ps)
  {
    Lines(ps) + "F> " + Hex2(Checksum(Total(ps))) + "\r"
  }

  /** Write out a block, adding up the characters on the way. */
  method SendBlock(ps: seq<Proposal>) returns (text: string)
    requires Sized(ps)
    ensures text == Wire(ps)
  {
    hide Line, CharSum, Hex2;
    text := [];
    var sum := 0;
    for i := 0 to |ps|
      invariant text == Lines(ps[..i]) && sum == Total(ps[..i])
    {
      assert ps[..i + 1][..i] == ps[..i];
      var line := Line(ps[i]);
      text := text + line + "\r";
      var s := AddUp(line);
      sum := sum + s + 13;
    }
    assert ps[..|ps|] == ps;
    text := text + "F> " + Hex2(Checksum(sum)) + "\r";
  }

  method AddUp(line: string) returns (sum: nat)
    ensures sum == CharSum(line)
  {
    sum := 0;
    for i := 0 to |line|
      invariant sum == CharSum(line[..i])
    {
      assert line[..i + 1][..i] == line[..i];
      sum := sum + line[i] as int;
    }
    assert line[..|line|] == line;
  }

  /** The outcome of reading one turn of the remote up to the prompt. */
  datatype Inbound =
    | Block(props: seq<Proposal>, rest: string)
    | NoMore(rest: string)
    | Quits(rest: string)
    | Failed
    | Starved

  /** What one line does: it is skipped, it adds a proposal, or it ends the reading. */
  datatype Effect = Skip | Add(p: Proposal) | End(r: Inbound)

  function OnLine(line: string, props: seq<Proposal>, sum: nat, rest: string): (e: Effect) {
    if line == [] || line[0] == ';' then Skip
    else if |line| < 2 || line[0] != 'F' then End(Failed)
    else if line[1] in {'A', 'B', 'C', 'D'} then
      match Parse(line)
      case None => End(Failed)
      case Some(p) => Add(p)
    else if line[1] == 'F' then End(NoMore(rest))
    else if line[1] == 'Q' then End(Quits(rest))
    else if line[1] != '>' || |line| < 3 || ParseHex(line[3..]) != Checksum(sum) then End(Failed)
    else End(Block(props, rest))
  }

  /** Read lines until the turn is over or a block is complete. */
  function Receive(text: string, props: seq<Proposal>, sum: nat): (r: Inbound)
    decreases |text|
  {
    match CutLine(text)
    case None => Starved
    case Some((raw, rest)) =>
      (match Clean(raw)
       case None => Failed
       case Some(line) =>
         match OnLine(line, props, sum, rest)
         case Skip => Receive(rest, props, sum)
         case Add(p) => Receive(rest, props + [p], sum + CharSum(line) + 13)
         case End(r) => r)
  }

  method ReceiveBlock(text: string) returns (r: Inbound)
    ensures r == Receive(text, [], 0)
  {
    hide Parse, ParseHex, Clean, CharSum;
    var left, props, sum := text, [], 0;
    while true
      invariant Receive(left, props, sum) == Receive(text, [], 0)
      decreases |left|
    {
      var cut := CutLine(left);
      if cut.None? {
        return Starved;
      }
      var line := Clean(cut.value.0);
      if line.None? {
        return Failed;
      }
      match OnLine(line.value, props, sum, cut.value.1) {
        case Skip =>
        case Add(p) =>
          var s := AddUp(line.value);
          props, sum := props + [p], sum + s + 13;
        case End(e) => return e;
      }
      left := cut.value.1;
    }
  }

  lemma LineShape(p: Proposal)
    requires WellFormed(p)
    ensures var l := Line(p); |l| >= 2 && l[0] == 'F' && l[1] == p.code && '\r' !in l && Clean(l) == Some(l)
  {
    hide Clean, Dec;
    DecNoSpace(p.size);
    DecNoSpace(p.compressedSize);
    DecNoSpace(0);
    var l := Line(p);
    assert Dec(0) == "0" by { ZeroDec(); }
    assert l[|l| - 1] == '0';
    CleanPlain(l);
  }

  lemma ZeroDec()
    ensures Dec(0) == "0"
  {
  }

  lemma {:induction false} LinesFront(ps: seq<Proposal>)
    requires ps != [] && Sized(ps)
    ensures Lines(ps) == Line(ps[0]) + "\r" + Lines(ps[1..])
    decreases |ps|
  {
    hide Line, Lines;
    var n := |ps| - 1;
    if n == 0 {
      LinesOne(ps[0]);
      assert ps == [ps[0]] && ps[1..] == [];
    } else {
      var head, mid := ps[..n], ps[1..n];
      LinesFront(head);
      assert head[1..] == mid && head[0] == ps[0];
      LinesSnoc(head, ps[n]);
      LinesSnoc(mid, ps[n]);
      assert head + [ps[n]] == ps;
      assert mid + [ps[n]] == ps[1..];
      Regroup(Line(ps[0]) + "\r", Lines(mid), Line(ps[n]) + "\r");
    }
  }

  lemma LinesOne(p: Proposal)
    requires Sized([p])
    ensures Lines([p]) == Line(p) + "\r" + Lines([])
  {
    hide Line;
    assert [p][..0] == [];
    assert Lines([]) == [];
    assert [] + Line(p) == Line(p) && Line(p) + "\r" + [] == Line(p) + "\r";
  }

  lemma LinesSnoc(ps: seq<Proposal>, p: Proposal)
    requires Sized(ps + [p])
    ensures Sized(ps) && Lines(ps + [p]) == Lines(ps) + (Line(p) + "\r")
  {
    hide Line;
    assert (ps + [p])[..|ps|] == ps;
    assert forall q :: q in ps ==> q in ps + [p];
    Regroup(Lines(ps), Line(p), "\r");
  }

  lemma {:induction false} TotalFront(ps: seq<Proposal>)
    requires ps != [] && Sized(ps)
    ensures Total(ps) == CharSum(Line(ps[0])) + 13 + Total(ps[1..])
    decreases |ps|
  {
    hide Line, CharSum;
    var n := |ps| - 1;
    if n == 0 {
    } else {
      TotalFront(ps[..n]);
      assert ps[..n][1..] == ps[1..][..n - 1];
    }
  }

  /** From the middle of a block. */
  lemma {:induction false} ReceiveRest(ps: seq<Proposal>, props: seq<Proposal>, sum: nat, tail: string)
    requires Sized(ps) && forall p :: p in ps ==> WellFormed(p)
    ensures Receive(Lines(ps) + tail, props, sum) == Receive(tail, props + ps, sum + Total(ps))
    decreases |ps|
  {
    hide Line, Lines, Total, Parse, Clean, CharSum, ParseHex, WellFormed;
    if ps == [] {
      NoLines();
      assert [] + tail == tail && props + ps == props;
    } else {
      var p, rest := ps[0], ps[1..];
      LinesFront(ps);
      TotalFront(ps);
      LineShape(p);
      ParseLine(p);
      CodeOk(p);
      var text := Lines(ps) + tail;
      assert text == Line(p) + "\r" + (Lines(rest) + tail);
      CutFirst(Line(p), Lines(rest) + tail);
      ReceiveRest(rest, props + [p], sum + CharSum(Line(p)) + 13, tail);
      assert props + [p] + rest == props + ps;
    }
  }

  lemma NoLines()
    ensures Lines([]) == [] && Total([]) == 0
  {
  }

  lemma SizesOk(ps: seq<Proposal>)
    requires forall p :: p in ps ==> WellFormed(p)
    ensures Sized(ps)
  {
  }

  lemma CodeOk(p: Proposal)
    requires WellFormed(p)
    ensures p.code in {'A', 'B', 'C', 'D'}
  {
  }

  /** A block passes the receiver's checksum and is read back as it was, up to its prompt. */
  lemma BlockReadsBack(ps: seq<Proposal>, rest: string)
    requires forall p :: p in ps ==> WellFormed(p)
    ensures Sized(ps) && Receive(Wire(ps) + rest, [], 0) == Block(ps, rest)
  {
    hide Lines, Parse, Clean, CharSum, ParseHex, WellFormed;
    SizesOk(ps);
    var c := Checksum(Total(ps));
    var last := "F> " + Hex2(c);
    assert Wire(ps) + rest == Lines(ps) + (last + "\r" + rest);
    ReceiveRest(ps, [], 0, last + "\r" + rest);
    PromptShape(c);
    CutFirst(last, rest);
    assert [] + ps == ps;
  }

  lemma PromptShape(c: nat)
    requires c < 256
    ensures var l := "F> " + Hex2(c); '\r' !in l && Clean(l) == Some(l) && ParseHex(l[3..]) == c
  {
    hide ParseHex, Clean;
    var l := "F> " + Hex2(c);
    ParseHex2(c);
    assert l[3..] == Hex2(c);
    CleanPlain(l);
  }

  /** The sum is that of all characters sent, line ends included. */
  lemma {:induction false} TotalIsCharSum(ps: seq<Proposal>)
    requires Sized(ps)
    ensures Total(ps) == CharSum(Lines(ps))
    decreases |ps|
  {
    hide Line, CharSum;
    if ps == [] {
      assert CharSum([]) == 0 by { CharSumOne('\r'); }
    } else {
      var n := |ps| - 1;
      TotalIsCharSum(ps[..n]);
      CharSumConcat(Lines(ps[..n]) + Line(ps[n]), "\r");
      CharSumConcat(Lines(ps[..n]), Line(ps[n]));
      CharSumOne('\r');
    }
  }

  /** A block of proposals is taken if its prompt brings the sum of its characters to 0, and refused otherwise. */
  lemma BlockChecked(ps: seq<Proposal>, c: nat, rest: string)
    requires c < 256 && forall p :: p in ps ==> WellFormed(p)
    ensures Sized(ps)
    ensures Receive(Lines(ps) + ("F> " + Hex2(c) + "\r" + rest), [], 0) ==
            if (CharSum(Lines(ps)) + c) % 256 == 0 then Block(ps, rest) else Failed
  {
    hide Lines, Total, Parse, Clean, CharSum, ParseHex, WellFormed, Hex2;
    SizesOk(ps);
    var last := "F> " + Hex2(c);
    ReceiveRest(ps, [], 0, last + "\r" + rest);
    PromptShape(c);
    CutFirst(last, rest);
    assert [] + ps == ps;
    TotalIsCharSum(ps);
    ChecksumOnly(Total(ps), c);
  }

  lemma ChecksumOnly(n: nat, c: nat)
    requires c < 256
    ensures c == Checksum(n) <==> (n + c) % 256 == 0
  {
  }

  // The answer line.

  /** The answer to a proposal: a repeated MID and an unsupported format are deferred. */
  function AnswerAt(b: Box, props: seq<Proposal>, i: nat): Answer
    requires i < |props|
  {
    if exists j :: 0 <= j < i && props[j].mid == props[i].mid then Defer
    else if props[i].code != 'C' && props[i].code != 'D' then Defer
    else GetInboundAnswer(b, props[i].mid)
  }

  function AnswersTo(b: Box, props: seq<Proposal>): (r: seq<Answer>)
    ensures |r| == |props|
  {
    seq(|props|, i requires 0 <= i < |props| => AnswerAt(b, props, i))
  }

  function Accepted(answers: seq<Answer>): (n: nat) {
    if answers == [] then 0
    else Accepted(answers[..|answers| - 1]) + if answers[|answers| - 1].Accept? then 1 else 0
  }

  /** Answer in order, remembering the MIDs seen. */
  method AnswerBlock(b: Box, props: seq<Proposal>) returns (answers: seq<Answer>, accepted: nat, line: string)
    ensures answers == AnswersTo(b, props) && accepted == Accepted(answers) && line == AnswerLine(answers)
  {
    hide AnswersTo, Accepted, GetInboundAnswer;
    answers, accepted := [], 0;
    var seen: set<Mid> := {};
    AcceptedSnoc([], Defer);
    for i := 0 to |props|
      invariant |answers| == i && accepted == Accepted(answers)
      invariant forall j :: 0 <= j < i ==> answers[j] == AnswerAt(b, props, j)
      invariant forall m :: m in seen <==> exists j :: 0 <= j < i && props[j].mid == m
    {
      var p := props[i];
      var answer := Defer;
      if p.mid !in seen && (p.code == 'C' || p.code == 'D') {
        answer := GetInboundAnswer(b, p.mid);
      }
      if answer.Accept? {
        accepted := accepted + 1;
      }
      seen := seen + {p.mid};
      AcceptedSnoc(answers, answer);
      answers := answers + [answer];
    }
    AllAnswers(b, props, answers);
    line := AnswerLine(answers);
  }

  lemma AcceptedSnoc(answers: seq<Answer>, a: Answer)
    ensures Accepted(answers + [a]) == Accepted(answers) + (if a.Accept? then 1 else 0) && Accepted([]) == 0
  {
    assert (answers + [a])[..|answers|] == answers;
  }

  lemma AllAnswers(b: Box, props: seq<Proposal>, answers: seq<Answer>)
    requires |answers| == |props| && forall j :: 0 <= j < |props| ==> answers[j] == AnswerAt(b, props, j)
    ensures answers == AnswersTo(b, props)
  {
    hide AnswerAt;
  }

  function Letter(a: Answer): char {
    match a
    case Accept => '+'
    case Reject => '-'
    case Defer => '='
  }

  function Letters(answers: seq<Answer>): (s: string)
    ensures |s| == |answers|
  {
    seq(|answers|, i requires 0 <= i < |answers| => Letter(answers[i]))
  }

  /** The line that carries the answers. */
  function AnswerLine(answers: seq<Answer>): (s: string) {
    "FS " + Letters(answers) + "\r"
  }

  /** An answer as the sender reads it; an offset comes with some acceptances. */
  datatype Reply = Reply(answer: Answer, offset: int)

  const OFFSET_LIMIT := 999999

  /** One more than the position of the last digit. */
  function PastLastDigit(s: string): (n: nat)
    ensures n <= |s|
  {
    if s == [] then 0 else if IsDigit(s[|s| - 1]) then |s| else PastLastDigit(s[..|s| - 1])
  }

  /** The first answer of the text and what follows it. */
  function FirstReply(s: string): (r: Option<(Reply, string)>)
    requires s != []
    ensures r.Some? ==> |r.value.1| < |s|
  {
    var (c, rest) := (s[0], s[1..]);
    if c in {'Y', 'y', '+'} then Some((Reply(Accept, 0), rest))
    else if c in {'N', 'n', 'R', 'r', '-'} then Some((Reply(Reject, 0), rest))
    else if c in {'L', 'l', '=', 'H', 'h'} then Some((Reply(Defer, 0), rest))
    else if c in {'A', 'a', '!'} && PastLastDigit(rest) > 0 then
      var n := PastLastDigit(rest);
      var offset := Number(rest[..n]);
      Some((Reply(Accept, if offset > OFFSET_LIMIT then 0 else offset), rest[n..]))
    else None
  }

  /** The answers to at most n proposals. */
  function Replies(s: string, n: nat): (r: Option<seq<Reply>>)
    decreases |s|
  {
    if s == [] then Some([])
    else if n == 0 || FirstReply(s).None? then None
    else
      var (a, rest) := FirstReply(s).value;
      match Replies(rest, n - 1)
      case None => None
      case Some(as_) => Some([a] + as_)
  }

  method ParseAnswer(line: string, n: nat) returns (r: Option<seq<Reply>>)
    ensures r == Replies(if "FS " <= line then line[3..] else line, n)
  {
    hide FirstReply;
    var s := if "FS " <= line then line[3..] else line;
    ghost var all := Replies(s, n);
    var replies: seq<Reply> := [];
    assert all.Some? ==> [] + all.value == all.value;
    while s != []
      invariant |replies| <= n
      invariant all == match Replies(s, n - |replies|) case None => None case Some(more) => Some(replies + more)
      decreases |s|
    {
      if |replies| >= n {
        return None;
      }
      var first := FirstReply(s);
      if first.None? {
        return None;
      }
      ghost var more := Replies(first.value.1, n - |replies| - 1);
      assert more.Some? ==> replies + ([first.value.0] + more.value) == replies + [first.value.0] + more.value;
      replies := replies + [first.value.0];
      s := first.value.1;
    }
    assert replies + [] == replies;
    r := Some(replies);
  }

  /** The outcome of waiting for the answer to n proposals. */
  datatype Awaited = Answered(replies: seq<Reply>, rest: string) | Refused | NoAnswer

  /** Skip comments, and parse the first line that is none; it must be an answer. */
  function ReadAnswer(text: string, n: nat): (r: Awaited)
    decreases |text|
  {
    match CutLine(text)
    case None => NoAnswer
    case Some((raw, rest)) =>
      (match Clean(raw)
       case None => Refused
       case Some(line) =>
         if "FS " <= line then
           match Replies(line[3..], n)
           case None => Refused
           case Some(replies) => Answered(replies, rest)
         else if ";" <= line then ReadAnswer(rest, n)
         else Refused)
  }

  method AwaitAnswer(text: string, n: nat) returns (r: Awaited)
    ensures r == ReadAnswer(text, n)
  {
    hide Clean, Replies;
    var left := text;
    while true
      invariant ReadAnswer(left, n) == ReadAnswer(text, n)
      decreases |left|
    {
      var cut := CutLine(left);
      if cut.None? {
        return NoAnswer;
      }
      var line := Clean(cut.value.0);
      if line.None? {
        return Refused;
      }
      left := cut.value.1;
      if "FS " <= line.value {
        var replies := ParseAnswer(line.value, n);
        return if replies.Some? then Answered(replies.value, left) else Refused;
      } else if !(";" <= line.value) {
        return Refused;
      }
    }
  }

  function Plain(answers: seq<Answer>): (r: seq<Reply>)
    ensures |r| == |answers|
  {
    seq(|answers|, i requires 0 <= i < |answers| => Reply(answers[i], 0))
  }

  lemma {:induction false} LettersReadBack(answers: seq<Answer>, n: nat)
    ensures Replies(Letters(answers), n) == if |answers| <= n then Some(Plain(answers)) else None
    decreases |answers|
  {
    if answers == [] {
    } else {
      var s := Letters(answers);
      assert s[1..] == Letters(answers[1..]);
      assert FirstReply(s) == Some((Reply(answers[0], 0), s[1..]));
      if n > 0 {
        LettersReadBack(answers[1..], n - 1);
        assert [Reply(answers[0], 0)] + Plain(answers[1..]) == Plain(answers);
      }
    }
  }

  /** The letters that stand for an answer. */
  predicate Stands(c: char, a: Answer) {
    match a
    case Accept => c in "Yy+"
    case Reject => c in "NnRr-"
    case Defer => c in "LlHh="
  }

  ghost predicate StandFor(s: string, answers: seq<Answer>) {
    |s| == |answers| && forall i :: 0 <= i < |s| ==> Stands(s[i], answers[i])
  }

  lemma LetterReads(s: string, a: Answer)
    requires s != [] && Stands(s[0], a)
    ensures FirstReply(s) == Some((Reply(a, 0), s[1..]))
  {
  }

  /** Letters are read one by one, whatever follows them. */
  lemma {:induction false} SynonymsRead(s: string, answers: seq<Answer>, tail: string, n: nat)
    requires StandFor(s, answers)
    ensures Replies(s + tail, n) ==
            if |s| > n then None
            else match Replies(tail, n - |s|) case None => None case Some(more) => Some(Plain(answers) + more)
    decreases |s|
  {
    hide FirstReply, Stands;
    if s == [] {
      assert s + tail == tail;
      assert Replies(tail, n).Some? ==> Plain(answers) + Replies(tail, n).value == Replies(tail, n).value;
    } else {
      LetterReads(s + tail, answers[0]);
      assert (s + tail)[1..] == s[1..] + tail;
      if n > 0 {
        SynonymsRead(s[1..], answers[1..], tail, n - 1);
        assert Plain(answers) == [Reply(answers[0], 0)] + Plain(answers[1..]);
        if |s| <= n && Replies(tail, n - |s|).Some? {
          Regroup([Reply(answers[0], 0)], Plain(answers[1..]), Replies(tail, n - |s|).value);
        }
      }
    }
  }

  /** Any other letter is refused, wherever an answer is expected. */
  lemma UnknownRefused(s: string, answers: seq<Answer>, c: char, tail: string, n: nat)
    requires StandFor(s, answers) && c !in "Yy+NnRr-LlHh=Aa!"
    ensures Replies(s + ([c] + tail), n) == None
  {
    hide Plain, Replies, Stands;
    SynonymsRead(s, answers, [c] + tail, n);
    if |s| <= n { UnknownFirst([c] + tail, n - |s|); }
  }

  lemma UnknownFirst(s: string, n: nat)
    requires s != [] && s[0] !in "Yy+NnRr-LlHh=Aa!"
    ensures Replies(s, n) == None
  {
    assert FirstReply(s) == None;
  }

  predicate NoDigit(s: string) {
    forall i :: 0 <= i < |s| ==> !IsDigit(s[i])
  }

  lemma {:induction false} LastDigitAt(s: string, tail: string)
    requires NoDigit(tail) && (s == [] || IsDigit(s[|s| - 1]))
    ensures PastLastDigit(s + tail) == |s|
    decreases |tail|
  {
    if tail == [] {
      assert s + tail == s;
    } else {
      assert (s + tail)[..|s + tail| - 1] == s + tail[..|tail| - 1];
      LastDigitAt(s, tail[..|tail| - 1]);
    }
  }

  /** The offset a request asks for; one beyond the limit is ignored. */
  function Asked(digits: string): (n: nat)
    requires AllDigits(digits)
  {
    if FromDigits(digits) > 999999 then 0 else FromDigits(digits)
  }

  /** A request for an offset, if no digit follows its number, is an acceptance with that offset. */
  lemma OffsetReads(c: char, digits: string, tail: string)
    requires c in "Aa!" && digits != [] && AllDigits(digits) && NoDigit(tail)
    ensures FirstReply([c] + (digits + tail)) == Some((Reply(Accept, Asked(digits)), tail))
  {
    hide PastLastDigit, FromDigits;
    var s := [c] + (digits + tail);
    assert s[1..] == digits + tail;
    LastDigitAt(digits, tail);
    assert (digits + tail)[..|digits|] == digits && (digits + tail)[|digits|..] == tail;
    DigitsNumber(digits);
  }

  lemma DigitsNumber(digits: string)
    requires digits != [] && AllDigits(digits)
    ensures Signed(digits) == Some(FromDigits(digits) as int)
  {
    hide FromDigits;
    assert IsDigit(digits[0]);
  }

  /** A request without any digit behind it is refused. */
  lemma OffsetMissing(c: char, tail: string)
    requires c in "Aa!" && NoDigit(tail)
    ensures FirstReply([c] + tail) == None
  {
    var s := [c] + tail;
    assert s[1..] == tail;
    assert "" + tail == tail;
    LastDigitAt("", tail);
  }

  /**
   A line with one request for an offset among its letters is read answer by answer, exactly if there
   are no more answers than proposals.
   */
  lemma OffsetLineReads(s: string, as_: seq<Answer>, c: char, digits: string, s': string, bs: seq<Answer>, n: nat)
    requires StandFor(s, as_) && StandFor(s', bs) && c in "Aa!" && digits != [] && AllDigits(digits)
    ensures Replies(s + ([c] + (digits + s')), n) ==
            if |s| + 1 + |s'| > n then None
            else Some(Plain(as_) + ([Reply(Accept, Asked(digits))] + Plain(bs)))
  {
    hide FirstReply, Plain, Asked, Stands;
    var tail := [c] + (digits + s');
    SynonymsRead(s, as_, tail, n);
    assert NoDigit(s') by { LettersNoDigit(s', bs); }
    OffsetReads(c, digits, s');
    if n > |s| {
      SynonymsRead(s', bs, [], n - |s| - 1);
      assert s' + [] == s' && Plain(bs) + [] == Plain(bs);
    }
  }

  lemma LettersNoDigit(s: string, answers: seq<Answer>)
    requires StandFor(s, answers)
    ensures NoDigit(s)
  {
    forall i | 0 <= i < |s| ensures !IsDigit(s[i]) { assert Stands(s[i], answers[i]); }
  }

  /** Two requests on one line run together: what lies between is taken for a number, and no offset is kept. */
  lemma OffsetsRunTogether(c: char, digits: string, between: string, last: string, tail: string)
    requires c in "Aa!" && AllDigits(digits) && digits != [] && between != [] && NoDigit(between)
    requires AllDigits(last) && last != [] && NoDigit(tail)
    ensures FirstReply([c] + (digits + between + last + tail)) == Some((Reply(Accept, 0), tail))
  {
    hide PastLastDigit, FromDigits;
    var number := digits + between + last;
    var s := [c] + (number + tail);
    assert s[1..] == number + tail;
    assert number[|number| - 1] == last[|last| - 1];
    LastDigitAt(number, tail);
    assert (number + tail)[..|number|] == number && (number + tail)[|number|..] == tail;
    assert !IsDigit(number[|digits|]) && IsDigit(number[0]) by {
      assert number[|digits|] == between[0] && number[0] == digits[0];
    }
    assert Signed(number) == None;
  }

  lemma PlainPair(a: Answer, b: Answer)
    ensures Plain([a, b]) == [Reply(a, 0), Reply(b, 0)]
  {
  }

  lemma JoinFive(a: Reply, b: Reply, c: Reply, d: Reply, e: Reply)
    ensures [a, b] + ([c] + [d, e]) == [a, b, c, d, e]
  {
  }

  /** Two lines with a request for an offset. */
  lemma SampleLines()
    ensures Replies("YLA3350RH", 5) ==
            Some([Reply(Accept, 0), Reply(Defer, 0), Reply(Accept, 3350), Reply(Reject, 0), Reply(Defer, 0)])
    ensures Replies("+=!3350-+", 5) ==
            Some([Reply(Accept, 0), Reply(Defer, 0), Reply(Accept, 3350), Reply(Reject, 0), Reply(Accept, 0)])
  {
    hide Replies, Plain;
    assert Asked("3350") == 3350 by {
      assert "3350"[..3] == "335" && "335"[..2] == "33" && "33"[..1] == "3" && "3"[..0] == "";
    }
    OffsetLineReads("YL", [Accept, Defer], 'A', "3350", "RH", [Reject, Defer], 5);
    OffsetLineReads("+=", [Accept, Defer], '!', "3350", "-+", [Reject, Accept], 5);
    PlainPair(Accept, Defer);
    PlainPair(Reject, Defer);
    PlainPair(Reject, Accept);
    JoinFive(Reply(Accept, 0), Reply(Defer, 0), Reply(Accept, 3350), Reply(Reject, 0), Reply(Defer, 0));
    JoinFive(Reply(Accept, 0), Reply(Defer, 0), Reply(Accept, 3350), Reply(Reject, 0), Reply(Accept, 0));
    assert "YL" + (['A'] + ("3350" + "RH")) == "YLA3350RH";
    assert "+=" + (['!'] + ("3350" + "-+")) == "+=!3350-+";
  }

  /** On the wire: the line is read whole, and nothing behind it. */
  lemma AnswerLineReads(s: string, n: nat, rest: string)
    requires s != [] && '\r' !in s && !IsSpace(s[|s| - 1]) && s[|s| - 1] as int != 0
    ensures ReadAnswer("FS " + s + "\r" + rest, n) ==
            match Replies(s, n) case None => Refused case Some(replies) => Answered(replies, rest)
  {
    hide Clean, Replies, CutLine;
    var l := "FS " + s;
    CutFirst(l, rest);
    CleanPlain(l);
    assert "FS " <= l && l[3..] == s;
  }

  lemma AnswerLineShape(answers: seq<Answer>)
    requires answers != []
    ensures var l := "FS " + Letters(answers);
            '\r' !in l && Clean(l) == Some(l) && "FS " <= l && l[3..] == Letters(answers)
  {
    hide Clean;
    var l := "FS " + Letters(answers);
    assert l[|l| - 1] == Letter(answers[|answers| - 1]);
    CleanPlain(l);
  }

  /** Without answers nothing but the command is left of the line. */
  lemma BareLine()
    ensures Clean("FS ") == Some("FS")
  {
    assert TrimLeft("FS ") == "FS ";
    assert "FS "[..2] == "FS";
    assert TrimRight("FS ") == TrimRight("FS") == "FS";
  }

  /**
   The answer line arrives: the sender reads the answers position by position and nothing behind the line,
   exactly if there is at least one and no more than there were proposals; otherwise it refuses the line.
   */
  lemma AnswersReadBack(answers: seq<Answer>, n: nat, rest: string)
    ensures ReadAnswer(AnswerLine(answers) + rest, n) ==
            if answers != [] && |answers| <= n then Answered(Plain(answers), rest) else Refused
  {
    hide Clean, Replies, Letters, Plain, CutLine;
    var l := "FS " + Letters(answers);
    Regroup(l, "\r", rest);
    if answers == [] {
      assert l == "FS ";
      CutFirst(l, rest);
      BareLine();
      assert ";"[0] != "FS"[0];
      assert !(";" <= "FS") && !("FS " <= "FS");
    } else {
      AnswerLineShape(answers);
      CutFirst(l, rest);
      LettersReadBack(answers, n);
    }
  }

  /** For proposals a sender makes, the answers are those of the session model. */
  lemma SessionAnswers(b: Box, props: seq<Proposal>)
    requires forall p :: p in props ==> WellFormed(p)
    ensures var mids: seq<Mid> := seq(|props|, i requires 0 <= i < |props| => props[i].mid);
            AnswersTo(b, props) == Session.Answers(b, mids)
  {
    var mids: seq<Mid> := seq(|props|, i requires 0 <= i < |props| => props[i].mid);
    forall i | 0 <= i < |props| ensures AnswersTo(b, props)[i] == Session.Answers(b, mids)[i] {
      assert WellFormed(props[i]);
      assert (exists j :: 0 <= j < i && props[j].mid == props[i].mid) <==> mids[i] in mids[..i] by {
        if j :| 0 <= j < i && props[j].mid == props[i].mid { assert mids[..i][j] == mids[i]; }
        if mids[i] in mids[..i] {
          var j :| 0 <= j < i && mids[..i][j] == mids[i];
          assert props[j].mid == props[i].mid;
        }
      }
    }
  }

  /** At most one proposal of a MID is accepted, and only one the station does not have. */
  lemma AcceptedOnce(b: Box, props: seq<Proposal>, i: nat, j: nat)
    requires i < |props| && j < |props| && AnswersTo(b, props)[i].Accept?
    ensures props[i].mid !in b.inbox && !b.sendOnly
    ensures AnswersTo(b, props)[j].Accept? && props[i].mid == props[j].mid ==> i == j
  {
  }
}
