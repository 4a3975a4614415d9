/**
 The Redis wire protocol as the agent speaks it: commands out, one reply at a
 time in, whatever pieces the connection delivers them in.
 */
module Resp {
  import opened Text
  import opened Wrappers
  import opened Numbers

  const MaxBulkBytes: nat := 4 * 1024 * 1024

  const CRLF: string := "\r\n"

  // ---------------------------------------------------------------------
  // What the bytes mean
  // ---------------------------------------------------------------------

  datatype ReplyError =
    | ReadFailed
    | EmptyReply
    | RedisError(message: string)
    | BadLength
    | TooLarge(size: nat)
    | Unsupported(kind: char)

  type Reply = Result<string, ReplyError>

  // A bulk payload of the given size and the two bytes after it.
  function Payload(size: int, rest: string): (Reply, string) {
    if size < 0 then (Ok(""), rest)
    else if size > MaxBulkBytes then (Err(TooLarge(size)), rest)
    else if |rest| < size + 2 then (Err(ReadFailed), "")
    else (Ok(rest[..size]), rest[size + 2..])
  }

  function ReplyOf(line: string, rest: string): (Reply, string) {
    if line == "" then (Err(EmptyReply), rest)
    else if line[0] == '+' || line[0] == ':' then (Ok(line[1..]), rest)
    else if line[0] == '-' then (Err(RedisError(line[1..])), rest)
    else if line[0] == '$' then
      match Atoi(line[1..])
      case None => (Err(BadLength), rest)
      case Some(size) => Payload(size, rest)
    else (Err(Unsupported(line[0])), rest)
  }

  // The next reply in a byte stream and what follows it.
  function NextReply(content: string): (Reply, string) {
    var i := IndexByte(content, '\n');
    if i < 0 then (Err(ReadFailed), "")
    else ReplyOf(TrimRight(content[..i + 1], {'\r', '\n'}), content[i + 1..])
  }

  // ---------------------------------------------------------------------
  // The connection
  // ---------------------------------------------------------------------

  predicate NonEmpty(chunks: seq<string>) { forall i :: 0 <= i < |chunks| ==> chunks[i] != "" }

  // A buffered reader over a connection that delivers `chunks`, one per read, and
  // then ends.
  class Reader {
    var buffered: string
    var chunks: seq<string>

    ghost predicate Valid()
      reads this
    {
      NonEmpty(chunks)
    }

    function Content(): string
      reads this
    {
      buffered + Flatten(chunks)
    }

    constructor (chunks: seq<string>)
      requires NonEmpty(chunks)
      ensures Valid() && Content() == Flatten(chunks)
    {
      buffered := "";
      this.chunks := chunks;
      new;
      assert "" + Flatten(chunks) == Flatten(chunks);
    }

    method Fill() returns (eof: bool)
      requires Valid()
      modifies this
      ensures Valid() && Content() == old(Content())
      ensures eof <==> old(chunks) == []
      ensures eof ==> buffered == old(buffered)
      ensures !eof ==> |chunks| < |old(chunks)| && |buffered| > |old(buffered)|
    {
      if chunks == [] {
        return true;
      }
      assert (buffered + chunks[0]) + Flatten(chunks[1..]) == buffered + (chunks[0] + Flatten(chunks[1..]));
      buffered, chunks := buffered + chunks[0], chunks[1..];
      return false;
    }

    // ReadString('\n'): up to and including the newline, or all that was left.
    method ReadLine() returns (line: string, failed: bool)
      requires Valid()
      modifies this
      ensures Valid()
      ensures var i := IndexByte(old(Content()), '\n');
              if i < 0 then failed && Content() == ""
              else !failed && line == old(Content())[..i + 1] && Content() == old(Content())[i + 1..]
    {
      hide IndexByte;
      var i := IndexByte(buffered, '\n');
      while i < 0
        invariant Valid() && Content() == old(Content())
        invariant i == IndexByte(buffered, '\n')
        decreases |chunks|
      {
        var eof := Fill();
        if eof {
          assert Flatten(chunks) == "" && Content() == buffered;
          line, buffered := buffered, "";
          return line, true;
        }
        i := IndexByte(buffered, '\n');
      }
      IndexInFront(buffered, Flatten(chunks), '\n');
      line := buffered[..i + 1];
      ghost var all := Content();
      assert all[..i + 1] == line && all[i + 1..] == buffered[i + 1..] + Flatten(chunks);
      buffered := buffered[i + 1..];
      return line, false;
    }

    // Read: at least one byte, at most `max`, of what is buffered or arrives next.
    method Read(max: nat) returns (got: string, eof: bool)
      requires Valid() && max > 0
      modifies this
      ensures Valid()
      ensures eof ==> got == "" && Content() == "" && old(Content()) == ""
      ensures !eof ==> 0 < |got| <= max && got + Content() == old(Content())
    {
      if buffered == "" {
        eof := Fill();
        if eof {
          assert Flatten(chunks) == "";
          return "", true;
        }
      }
      var n := if |buffered| < max then |buffered| else max;
      got := buffered[..n];
      assert got + (buffered[n..] + Flatten(chunks)) == (got + buffered[n..]) + Flatten(chunks);
      assert got + buffered[n..] == buffered;
      buffered := buffered[n..];
      return got, false;
    }
  }

  lemma IndexInFront(a: string, b: string, c: char)
    requires IndexByte(a, c) >= 0
    ensures IndexByte(a + b, c) == IndexByte(a, c)
  {
    var i := IndexByte(a, c);
    assert a + b == a[..i] + (a[i..] + b);
    IndexAnyAfter(a[..i], a[i..] + b, {c});
  }

  method ReadFull(reader: Reader, size: nat) returns (buf: string, failed: bool)
    requires reader.Valid()
    modifies reader
    ensures reader.Valid()
    ensures if |old(reader.Content())| < size then failed && reader.Content() == ""
            else !failed && buf == old(reader.Content())[..size] && reader.Content() == old(reader.Content())[size..]
  {
    buf := "";
    ghost var all := reader.Content();
    assert "" + all == all;
    while |buf| < size
      invariant reader.Valid() && |buf| <= size
      invariant buf + reader.Content() == all
      decreases size - |buf|
    {
      ghost var left := reader.Content();
      var got, eof := reader.Read(size - |buf|);
      if eof {
        return buf, true;
      }
      assert (buf + got) + reader.Content() == buf + left;
      buf := buf + got;
    }
    return buf, false;
  }

  // However the bytes were cut up on their way, the reply and what remains are
  // those the byte stream has.
  method ReadReply(reader: Reader) returns (r: Reply)
    requires reader.Valid()
    modifies reader
    ensures reader.Valid()
    ensures (r, reader.Content()) == NextReply(old(reader.Content()))
  {
    hide IndexByte, TrimRight, Atoi;
    var line, failed := reader.ReadLine();
    if failed {
      return Err(ReadFailed);
    }
    line := TrimRight(line, {'\r', '\n'});
    if line == "" {
      return Err(EmptyReply);
    }
    if line[0] == '+' || line[0] == ':' {
      return Ok(line[1..]);
    }
    if line[0] == '-' {
      return Err(RedisError(line[1..]));
    }
    if line[0] == '$' {
      var size := Atoi(line[1..]);
      if size.None? {
        return Err(BadLength);
      }
      if size.value < 0 {
        return Ok("");
      }
      if size.value > MaxBulkBytes {
        return Err(TooLarge(size.value));
      }
      ghost var rest := reader.Content();
      var buf, short := ReadFull(reader, size.value + 2);
      if short {
        return Err(ReadFailed);
      }
      assert buf[..size.value] == rest[..size.value];
      return Ok(buf[..size.value]);
    }
    return Err(Unsupported(line[0]));
  }

  // ---------------------------------------------------------------------
  // Replies come back as they were sent
  // ---------------------------------------------------------------------

  datatype Sent =
    | Status(text: string)
    | Failure(message: string)
    | Number(negative: bool, n: nat)
    | Bulk(payload: string)
    | NoBulk

  predicate LineSafe(s: string) { '\n' !in s && (s != "" ==> s[|s| - 1] != '\r') }

  predicate Sendable(x: Sent) {
    match x
    case Status(text) => LineSafe(text)
    case Failure(message) => LineSafe(message)
    case Bulk(payload) => |payload| <= MaxInt
    case _ => true
  }

  function Signed(negative: bool, n: nat): string { if negative then "-" + Itoa(n) else Itoa(n) }

  function Encoded(x: Sent): string {
    match x
    case Status(text) => "+" + text + CRLF
    case Failure(message) => "-" + message + CRLF
    case Number(negative, n) => ":" + Signed(negative, n) + CRLF
    case Bulk(payload) => "$" + Itoa(|payload|) + CRLF + payload + CRLF
    case NoBulk => "$-1" + CRLF
  }

  function Received(x: Sent): Reply {
    match x
    case Status(text) => Ok(text)
    case Failure(message) => Err(RedisError(message))
    case Number(negative, n) => Ok(Signed(negative, n))
    case Bulk(payload) => if |payload| <= MaxBulkBytes then Ok(payload) else Err(TooLarge(|payload|))
    case NoBulk => Ok("")
  }

  lemma LineFound(line: string, rest: string)
    requires LineSafe(line)
    ensures NextReply(line + CRLF + rest) == ReplyOf(line, rest)
  {
    hide ReplyOf;
    var front := line + "\r";
    var all := line + CRLF + rest;
    assert all == front + ("\n" + rest);
    IndexAnyAfter(front, "\n" + rest, {'\n'});
    assert all[..|front| + 1] == line + CRLF && all[|front| + 1..] == rest;
    TrimRightIs(line, CRLF, {'\r', '\n'});
  }

  // A line may also end in a newline alone.
  lemma BareLineFound(line: string, rest: string)
    requires LineSafe(line)
    ensures NextReply(line + "\n" + rest) == ReplyOf(line, rest)
  {
    hide ReplyOf;
    var all := line + "\n" + rest;
    assert all == line + ("\n" + rest);
    IndexAnyAfter(line, "\n" + rest, {'\n'});
    assert all[..|line| + 1] == line + "\n" && all[|line| + 1..] == rest;
    TrimRightIs(line, "\n", {'\r', '\n'});
  }

  lemma DigitsLineSafe(prefix: char, n: nat)
    requires prefix != '\n'
    ensures LineSafe([prefix] + Itoa(n))
  {
    var s := [prefix] + Itoa(n);
    assert s[|s| - 1] == Itoa(n)[|s| - 2];
    forall i | 0 <= i < |s| ensures s[i] != '\n' { if i > 0 { assert s[i] == Itoa(n)[i - 1]; } }
  }

  // A payload may hold anything, line ends included.
  lemma BulkReceived(payload: string, rest: string)
    requires |payload| <= MaxInt
    ensures var r := NextReply(Encoded(Bulk(payload)) + rest);
            && r.0 == Received(Bulk(payload))
            && (|payload| <= MaxBulkBytes ==> r.1 == rest)
            && (|payload| > MaxBulkBytes ==> r.1 == payload + CRLF + rest)
  {
    hide NextReply, Itoa, Atoi;
    var line, tail := "$" + Itoa(|payload|), payload + CRLF + rest;
    assert Encoded(Bulk(payload)) + rest == line + CRLF + tail;
    DigitsLineSafe('$', |payload|);
    LineFound(line, tail);
    assert line[1..] == Itoa(|payload|);
    AtoiItoa(|payload|);
    assert tail[..|payload|] == payload && tail[|payload| + 2..] == rest;
  }

  lemma NumberReceived(negative: bool, n: nat, rest: string)
    ensures NextReply(Encoded(Number(negative, n)) + rest) == (Ok(Signed(negative, n)), rest)
  {
    hide NextReply, Itoa;
    var text := Signed(negative, n);
    DigitsLineSafe(if negative then '-' else ':', n);
    var line := ":" + text;
    assert Encoded(Number(negative, n)) + rest == line + CRLF + rest;
    assert line == if negative then [':'] + (['-'] + Itoa(n)) else [':'] + Itoa(n);
    LineFound(line, rest);
    assert line[1..] == text;
  }

  lemma MinusOne()
    ensures Atoi("-1") == Some(-1) && LineSafe("$-1")
  {
    assert "-1"[1..] == "1" && "1"[..0] == "";
    assert Value("1") == 1;
  }

  // What a reply leaves of the stream: a payload over the limit stays where it is.
  function Leaves(x: Sent, rest: string): string {
    if x.Bulk? && |x.payload| > MaxBulkBytes then x.payload + CRLF + rest else rest
  }

  // Any reply is read as it was meant, but for a payload over the limit, which is
  // refused after its length and not consumed.
  lemma ReplyReceived(x: Sent, rest: string)
    requires Sendable(x)
    ensures NextReply(Encoded(x) + rest) == (Received(x), Leaves(x, rest))
  {
    hide NextReply, Itoa, Atoi;
    match x
    case Status(text) =>
      assert Encoded(x) + rest == ("+" + text) + CRLF + rest;
      LineFound("+" + text, rest);
      assert ("+" + text)[1..] == text;
    case Failure(message) =>
      assert Encoded(x) + rest == ("-" + message) + CRLF + rest;
      LineFound("-" + message, rest);
      assert ("-" + message)[1..] == message;
    case Number(negative, n) =>
      NumberReceived(negative, n, rest);
    case Bulk(payload) =>
      BulkReceived(payload, rest);
    case NoBulk =>
      assert Encoded(x) + rest == "$-1" + CRLF + rest;
      MinusOne();
      LineFound("$-1", rest);
      assert "$-1"[1..] == "-1";
  }

  // A stream that ends inside a reply gives none: part of a line or of a payload is never
  // taken for the whole.
  lemma PartFails(x: Sent, n: nat)
    requires Sendable(x) && n < |Encoded(x)|
    ensures var part := Encoded(x)[..n];
            if x.Bulk? && |x.payload| > MaxBulkBytes && '\n' in part then NextReply(part).0 == Received(x)
            else NextReply(part) == (Err(ReadFailed), "")
  {
    hide NextReply, Itoa, Atoi;
    match x
    case Status(text) =>
      PartOfLine("+" + text, n);
    case Failure(message) =>
      PartOfLine("-" + message, n);
    case Number(negative, k) =>
      NumberLine(negative, k);
      PartOfLine(":" + Signed(negative, k), n);
    case Bulk(payload) =>
      PartOfBulk(payload, n);
    case NoBulk =>
      MinusOne();
      PartOfLine("$-1", n);
  }

  lemma NumberLine(negative: bool, n: nat)
    ensures LineSafe(":" + Signed(negative, n))
  {
    DigitsLineSafe(if negative then '-' else ':', n);
    assert ":" + Signed(negative, n) == if negative then [':'] + (['-'] + Itoa(n)) else [':'] + Itoa(n);
  }

  lemma PartOfLine(line: string, n: nat)
    requires '\n' !in line && n < |line + CRLF|
    ensures '\n' !in (line + CRLF)[..n] && NextReply((line + CRLF)[..n]) == (Err(ReadFailed), "")
  {
    var part := (line + CRLF)[..n];
    assert part <= line + "\r";
  }

  lemma PartOfBulk(payload: string, n: nat)
    requires |payload| <= MaxInt && n < |Encoded(Bulk(payload))|
    ensures var part, x := Encoded(Bulk(payload))[..n], Bulk(payload);
            if |payload| > MaxBulkBytes && '\n' in part then NextReply(part).0 == Received(x)
            else NextReply(part) == (Err(ReadFailed), "")
  {
    hide NextReply, Itoa, Atoi;
    var line, tail := "$" + Itoa(|payload|), payload + CRLF;
    DigitsLineSafe('$', |payload|);
    var head := line + CRLF;
    assert Encoded(Bulk(payload)) == head + tail;
    if n < |head| {
      assert (head + tail)[..n] == head[..n];
      PartOfLine(line, n);
    } else {
      var rest := tail[..n - |head|];
      assert (head + tail)[..n] == line + CRLF + rest;
      assert (line + CRLF + rest)[|line| + 1] == '\n';
      LineFound(line, rest);
      assert line[1..] == Itoa(|payload|);
      AtoiItoa(|payload|);
    }
  }

  // A line that is no reply is an error of its own kind, and only the line is consumed.
  lemma LineRefused(line: string, rest: string)
    requires LineSafe(line) && (line != "" ==> line[0] !in {'+', '-', ':'})
    requires line != "" && line[0] == '$' ==> Atoi(line[1..]) == None
    ensures NextReply(line + CRLF + rest) == NextReply(line + "\n" + rest)
         == (Err(if line == "" then EmptyReply else if line[0] == '$' then BadLength else Unsupported(line[0])), rest)
  {
    LineFound(line, rest);
    BareLineFound(line, rest);
    hide NextReply, Atoi;
  }

  // So the stream is left at the next reply if and only if no limit was exceeded.
  lemma LeftAtNextExactly(x: Sent, rest: string)
    requires Sendable(x)
    ensures NextReply(Encoded(x) + rest).1 == rest <==> (x.Bulk? ==> |x.payload| <= MaxBulkBytes)
  {
    hide NextReply, Encoded, Received;
    ReplyReceived(x, rest);
    assert |Leaves(x, rest)| > |rest| <==> x.Bulk? && |x.payload| > MaxBulkBytes;
  }

  // After a payload of one byte too many, the reader takes that payload for a reply.
  lemma RefusedPayloadIsNextReply(rest: string)
    ensures NextReplies(Encoded(Bulk(Repeated('x', MaxBulkBytes + 1))) + rest, 2)
         == ([Err(TooLarge(MaxBulkBytes + 1)), Err(Unsupported('x'))], rest)
  {
    hide NextReply, Encoded, Repeated;
    var payload := Repeated('x', MaxBulkBytes + 1);
    var content := Encoded(Bulk(payload)) + rest;
    ReplyReceived(Bulk(payload), rest);
    assert NextReply(content) == (Err(TooLarge(MaxBulkBytes + 1)), payload + CRLF + rest);
    LineFound(payload, rest);
    TwoReplies(content);
  }

  lemma TwoReplies(content: string)
    ensures var (r, after) := NextReply(content);
            var (q, last) := NextReply(after);
            NextReplies(content, 2) == ([r, q], last)
  {
    hide NextReply;
    assert NextReplies(content, 0) == ([], content);
    var (r, after) := NextReply(content);
    assert [] + [r] == [r];
    assert NextReplies(content, 1) == ([r], after);
    var (q, last) := NextReply(after);
    assert [r] + [q] == [r, q];
  }

  function AllEncoded(xs: seq<Sent>): string {
    if xs == [] then "" else Encoded(xs[0]) + AllEncoded(xs[1..])
  }

  // Reading n replies one after the other.
  method ReadReplies(reader: Reader, n: nat) returns (rs: seq<Reply>)
    requires reader.Valid()
    modifies reader
    ensures reader.Valid()
    ensures (rs, reader.Content()) == NextReplies(old(reader.Content()), n)
  {
    hide NextReply;
    rs := [];
    ghost var start := reader.Content();
    for i := 0 to n
      invariant reader.Valid()
      invariant (rs, reader.Content()) == NextReplies(start, i)
    {
      var r := ReadReply(reader);
      rs := rs + [r];
    }
  }

  function NextReplies(content: string, n: nat): (seq<Reply>, string) {
    if n == 0 then ([], content)
    else
      var (earlier, rest) := NextReplies(content, n - 1);
      var (r, after) := NextReply(rest);
      (earlier + [r], after)
  }

  lemma {:induction false} EncodedSnoc(xs: seq<Sent>, x: Sent)
    ensures AllEncoded(xs + [x]) == AllEncoded(xs) + Encoded(x)
  {
    hide Encoded;
    if xs == [] {
      assert [x][1..] == [] && [] + [x] == [x];
      assert Encoded(x) + "" == "" + Encoded(x);
    } else {
      EncodedSnoc(xs[1..], x);
      assert (xs + [x])[1..] == xs[1..] + [x];
      assert Encoded(xs[0]) + (AllEncoded(xs[1..]) + Encoded(x)) == (Encoded(xs[0]) + AllEncoded(xs[1..])) + Encoded(x);
    }
  }

  function AllReceived(xs: seq<Sent>): seq<Reply> {
    if xs == [] then [] else AllReceived(xs[..|xs| - 1]) + [Received(xs[|xs| - 1])]
  }

  // Whole sequences of replies are read in order.
  lemma {:induction false} RepliesInOrder(xs: seq<Sent>, rest: string)
    requires forall i :: 0 <= i < |xs| ==> Sendable(xs[i]) && (xs[i].Bulk? ==> |xs[i].payload| <= MaxBulkBytes)
    ensures NextReplies(AllEncoded(xs) + rest, |xs|) == (AllReceived(xs), rest)
    decreases |xs|
  {
    hide NextReply, Encoded, Received;
    if xs == [] {
      assert "" + rest == rest;
    } else {
      var n := |xs| - 1;
      var earlier, last := xs[..n], xs[n];
      EncodedSnoc(earlier, last);
      assert xs == earlier + [last];
      assert AllEncoded(xs) + rest == AllEncoded(earlier) + (Encoded(last) + rest);
      RepliesInOrder(earlier, Encoded(last) + rest);
      ReplyReceived(last, rest);
    }
  }

  // ---------------------------------------------------------------------
  // Commands
  // ---------------------------------------------------------------------

  function BulkText(arg: string): string { "$" + Itoa(|arg|) + CRLF + arg + CRLF }

  function BulkTexts(args: seq<string>): string {
    if args == [] then "" else BulkTexts(args[..|args| - 1]) + BulkText(args[|args| - 1])
  }

  function Request(args: seq<string>): string { "*" + Itoa(|args|) + CRLF + BulkTexts(args) }

  class Conn {
    const reader: Reader
    var sent: string

    constructor (reader: Reader)
      ensures this.reader == reader && sent == ""
    {
      this.reader := reader;
      sent := "";
    }

    // Writes one command, then reads one reply.
    method Command(args: seq<string>, writable: bool) returns (r: Option<Reply>)
      requires reader.Valid()
      modifies this`sent, reader
      ensures reader.Valid()
      ensures !writable ==> r == None && sent == old(sent) && reader.Content() == old(reader.Content())
      ensures writable ==>
                && sent == old(sent) + Request(args)
                && (r, reader.Content()) == (Some(NextReply(old(reader.Content())).0), NextReply(old(reader.Content())).1)
    {
      hide Itoa, NextReply, BulkText;
      var head := "*" + Itoa(|args|) + CRLF;
      var request := head;
      assert request == head + "";
      for i := 0 to |args|
        invariant request == head + BulkTexts(args[..i])
      {
        assert args[..i + 1][..i] == args[..i];
        assert (head + BulkTexts(args[..i])) + BulkText(args[i]) == head + (BulkTexts(args[..i]) + BulkText(args[i]));
        request := request + BulkText(args[i]);
      }
      assert args[..|args|] == args;
      if !writable {
        return None;
      }
      sent := sent + request;
      var reply := ReadReply(reader);
      return Some(reply);
    }
  }

  // What a server reads: a count line, then that many bulk strings, each of the
  // announced length and closed by a line end.
  function ServerLine(kind: char, bytes: string): Option<(nat, string)> {
    var i := IndexByte(bytes, '\n');
    if i < 2 || bytes[0] != kind || bytes[i - 1] != '\r' then None
    else match Atoi(bytes[1..i - 1])
      case None => None
      case Some(n) => if n < 0 then None else Some((n, bytes[i + 1..]))
  }

  function ServerBulk(bytes: string): Option<(string, string)> {
    match ServerLine('$', bytes)
    case None => None
    case Some((n, rest)) =>
      if |rest| < n + 2 || rest[n..n + 2] != CRLF then None else Some((rest[..n], rest[n + 2..]))
  }

  function ServerBulks(n: nat, bytes: string): Option<(seq<string>, string)> {
    if n == 0 then Some(([], bytes))
    else match ServerBulks(n - 1, bytes)
      case None => None
      case Some((args, rest)) =>
        match ServerBulk(rest)
        case None => None
        case Some((arg, after)) => Some((args + [arg], after))
  }

  function ServerRequest(bytes: string): Option<(seq<string>, string)> {
    match ServerLine('*', bytes)
    case None => None
    case Some((n, rest)) => ServerBulks(n, rest)
  }

  lemma ServerLineReads(kind: char, n: nat, rest: string)
    requires n <= MaxInt && kind != '\n'
    ensures ServerLine(kind, [kind] + Itoa(n) + CRLF + rest) == Some((n, rest))
  {
    hide Itoa, Atoi;
    var line := [kind] + Itoa(n);
    var front := line + "\r";
    var bytes := line + CRLF + rest;
    DigitsLineSafe(kind, n);
    assert bytes == front + ("\n" + rest);
    IndexAnyAfter(front, "\n" + rest, {'\n'});
    assert bytes[1..|front| - 1] == Itoa(n) && bytes[|front| + 1..] == rest;
    AtoiItoa(n);
  }

  lemma ServerBulkReads(arg: string, rest: string)
    requires |arg| <= MaxInt
    ensures ServerBulk(BulkText(arg) + rest) == Some((arg, rest))
  {
    hide Itoa, ServerLine;
    var tail := arg + CRLF + rest;
    assert BulkText(arg) + rest == "$" + Itoa(|arg|) + CRLF + tail;
    ServerLineReads('$', |arg|, tail);
    assert tail[..|arg|] == arg && tail[|arg|..|arg| + 2] == CRLF && tail[|arg| + 2..] == rest;
  }

  lemma {:induction false} ServerBulksRead(args: seq<string>, rest: string)
    requires forall i :: 0 <= i < |args| ==> |args[i]| <= MaxInt
    ensures ServerBulks(|args|, BulkTexts(args) + rest) == Some((args, rest))
    decreases |args|
  {
    hide ServerBulk, BulkText;
    if args == [] {
      assert "" + rest == rest;
    } else {
      var n := |args| - 1;
      var earlier, last := args[..n], args[n];
      assert BulkTexts(args) + rest == BulkTexts(earlier) + (BulkText(last) + rest);
      ServerBulksRead(earlier, BulkText(last) + rest);
      ServerBulkReads(last, rest);
      assert args == earlier + [last];
    }
  }

  // A server recovers exactly the arguments, whatever bytes they hold.
  lemma RequestRoundTrip(args: seq<string>, rest: string)
    requires |args| <= MaxInt && forall i :: 0 <= i < |args| ==> |args[i]| <= MaxInt
    ensures ServerRequest(Request(args) + rest) == Some((args, rest))
  {
    hide Itoa, ServerLine, ServerBulks;
    var tail := BulkTexts(args) + rest;
    assert Request(args) + rest == "*" + Itoa(|args|) + CRLF + tail;
    ServerLineReads('*', |args|, tail);
    ServerBulksRead(args, rest);
  }
}
