/**
  The desktop side of the updater protocol (src/update_download.rs:13-190 and 294-422): frames of at most 16 KiB
  read from the helper's output, their validation, and what a cancelled operation reports. Parsing JSON is a
  parameter; a time-out is an input that may happen at any wait.
*/
module UpdateSession {
  import opened Numbers
  import opened Wrappers
  import Sequences

  const MAX_EVENT_BYTES: nat := 16 * 1024

  // ---------------------------------------------------------------- messages

  datatype Artifact = Artifact(name: string, size: nat, digest: string)

  /** A path with what the platform says about it. */
  datatype Path = Path(text: string, absolute: bool, fileName: Option<string>)

  datatype Phase = Checking | Downloading | Verifying

  datatype Progress = Progress(phase: Phase, downloaded: nat, total: nat)

  datatype Outcome = Downloaded(path: Path) | Verified(teamId: string, bundleVersion: string) | Cancelled

  datatype Operation = Download | Verify(archive: Path)

  datatype Event =
    | ProgressEvent(progress: Progress)
    | DownloadedEvent(artifact: Artifact, path: Path)
    | VerifiedEvent(artifact: Artifact, archive: Path, teamId: string, bundleVersion: string)
    | CancelledEvent
    | ErrorEvent(code: string, message: Option<string>)

  datatype Envelope = Envelope(protocolVersion: nat, installationEnabled: bool, event: Event)

  datatype Error =
    | Oversized | Malformed | WrongProtocol | BadProgress | WrongDownload | WrongVerification
    | Reported(message: string) | AfterTerminal | Backwards | ViewClosed
    | TimedOut | NotCancelling | WaitFailed | NotExiting | FailedAfterDownload | NothingCompleted

  datatype Validated = ProgressUpdate(progress: Progress) | Finished(result: Result<Outcome, Error>)

  /** What the checks compare a message with, and the parser of one frame. */
  datatype Approval = Approval(expected: Artifact, operation: Operation, parse: seq<Byte> -> Option<Envelope>)

  predicate UpperOrDigit(c: char) {
    'A' <= c <= 'Z' || '0' <= c <= '9'
  }

  predicate TeamId(s: string) {
    |s| == 10 && forall i :: 0 <= i < |s| ==> UpperOrDigit(s[i])
  }

  predicate BundleVersion(s: string) {
    s != "" && (forall i :: 0 <= i < |s| ==> '0' <= s[i] <= '9') && exists i :: 0 <= i < |s| && s[i] != '0'
  }

  function ErrorText(code: string, message: Option<string>): string {
    if message.Some? && message.value != "" then message.value
    else "Updater error: " + code + ". Recheck the release or rebuild the app."
  }

  predicate ValidProgress(a: Approval, p: Progress) {
    match p.phase
    case Checking => p.downloaded == 0 && (p.total == 0 || p.total == a.expected.size)
    case Downloading => a.operation.Download? && p.total == a.expected.size && p.downloaded <= p.total
    case Verifying => p.total == a.expected.size && p.downloaded == p.total
  }

  function DecodeOperation(a: Approval, line: seq<Byte>): (r: Result<Validated, Error>)
    ensures r.Ok? ==> line != [] && |line| <= MAX_EVENT_BYTES && line[|line| - 1] == NEWLINE
    ensures r.Ok? && r.value.ProgressUpdate? ==> r.value.progress.downloaded <= a.expected.size
  {
    if |line| > MAX_EVENT_BYTES || line == [] || line[|line| - 1] != NEWLINE then Err(Oversized)
    else
      var parsed := a.parse(line);
      if parsed.None? then Err(Malformed)
      else
        var message := parsed.value;
        var verified := message.event.VerifiedEvent? && a.operation.Verify?;
        if message.protocolVersion != 1 || message.installationEnabled != verified then Err(WrongProtocol)
        else
          match message.event
          case ProgressEvent(p) => if ValidProgress(a, p) then Ok(ProgressUpdate(p)) else Err(BadProgress)
          case DownloadedEvent(artifact, path) =>
            if a.operation.Download? && artifact == a.expected && path.absolute
               && path.fileName == Some(a.expected.name)
            then Ok(Finished(Ok(Downloaded(path)))) else Err(WrongDownload)
          case VerifiedEvent(artifact, archive, teamId, bundleVersion) =>
            if a.operation.Verify? && a.operation.archive.text == archive.text && artifact == a.expected
               && archive.absolute && TeamId(teamId) && BundleVersion(bundleVersion)
            then Ok(Finished(Ok(Verified(teamId, bundleVersion)))) else Err(WrongVerification)
          case CancelledEvent => Ok(Finished(Ok(Cancelled)))
          case ErrorEvent(code, text) => Ok(Finished(Err(Reported(ErrorText(code, text)))))
  }

  /** An outcome that the approval covers. */
  predicate Approved(a: Approval, o: Outcome) {
    match o
    case Downloaded(path) => a.operation.Download? && path.absolute && path.fileName == Some(a.expected.name)
    case Verified(teamId, bundleVersion) => a.operation.Verify? && TeamId(teamId) && BundleVersion(bundleVersion)
    case Cancelled => true
  }

  /** At most 16 KiB that end with a newline. */
  predicate WholeFrame(line: seq<Byte>) {
    0 < |line| <= 16384 && line[|line| - 1] == 10
  }

  /** A progress message that fits the approval. */
  predicate FitsApproval(a: Approval, p: Progress) {
    && p.downloaded <= p.total <= a.expected.size
    && (p.total == a.expected.size || (p.phase == Checking && p.total == 0))
    && (p.phase == Checking ==> p.downloaded == 0)
    && (p.phase == Downloading ==> a.operation == Download)
    && (p.phase == Verifying ==> p.downloaded == a.expected.size)
  }

  /** The progress that is passed on, and the messages that end the session without a completed outcome. */
  lemma {:induction false} OtherwiseAccepted(a: Approval, line: seq<Byte>, p: Progress, text: string)
    ensures DecodeOperation(a, line) == Ok(ProgressUpdate(p))
       <==> WholeFrame(line) && a.parse(line) == Some(Envelope(1, false, ProgressEvent(p))) && FitsApproval(a, p)
    ensures DecodeOperation(a, line) == Ok(Finished(Ok(Cancelled)))
       <==> WholeFrame(line) && a.parse(line) == Some(Envelope(1, false, CancelledEvent))
    ensures DecodeOperation(a, line) == Ok(Finished(Err(Reported(text))))
       <==> WholeFrame(line) && exists code, message {:trigger ErrorEvent(code, message)} ::
              a.parse(line) == Some(Envelope(1, false, ErrorEvent(code, message))) && text == ErrorText(code, message)
  {
    if a.parse(line).Some? {
      var e := a.parse(line).value.event;
      if e.ErrorEvent? {
        assert e == ErrorEvent(e.code, e.message);
      }
    }
  }

  /** Whatever else is a whole frame is refused, by what is wrong with it. */
  lemma {:induction false} RefusedExactly(a: Approval, line: seq<Byte>)
    ensures DecodeOperation(a, line) == Err(Oversized) <==> !WholeFrame(line)
    ensures DecodeOperation(a, line) == Err(Malformed) <==> WholeFrame(line) && a.parse(line).None?
    ensures DecodeOperation(a, line) == Err(WrongProtocol) <==>
      && WholeFrame(line) && a.parse(line).Some?
      && (a.parse(line).value.protocolVersion != 1
          || (a.parse(line).value.installationEnabled <==>
                !(a.parse(line).value.event.VerifiedEvent? && a.operation.Verify?)))
    ensures DecodeOperation(a, line) == Err(BadProgress) ==> a.parse(line).value.event.ProgressEvent?
    ensures DecodeOperation(a, line) == Err(WrongDownload) ==> a.parse(line).value.event.DownloadedEvent?
    ensures DecodeOperation(a, line) == Err(WrongVerification) ==> a.parse(line).value.event.VerifiedEvent?
    ensures DecodeOperation(a, line).Err? ==>
      DecodeOperation(a, line).error in {Oversized, Malformed, WrongProtocol, BadProgress, WrongDownload, WrongVerification}
  {
  }

  predicate MadeOf(s: string, alphabet: string) {
    forall c :: c in s ==> c in alphabet
  }

  /** Ten capital letters or digits, and a number that is not zero. */
  predicate Publisher(teamId: string, version: string) {
    && |teamId| == 10 && MadeOf(teamId, "ABCDEFGHIJKLMNOPQRSTUVWXYZ0123456789")
    && MadeOf(version, "0123456789") && exists c :: c in version && c in "123456789"
  }

  lemma {:induction false} PublisherIsChecked(teamId: string, version: string)
    ensures TeamId(teamId) && BundleVersion(version) <==> Publisher(teamId, version)
  {
    TeamIdIsChecked(teamId);
    VersionIsChecked(version);
  }

  lemma {:induction false} TeamIdIsChecked(s: string)
    ensures TeamId(s) <==> |s| == 10 && MadeOf(s, "ABCDEFGHIJKLMNOPQRSTUVWXYZ0123456789")
  {
    forall c | c in s ensures UpperOrDigit(c) <==> c in "ABCDEFGHIJKLMNOPQRSTUVWXYZ0123456789" {
      CapitalOrDigit(c);
    }
    assert forall i :: 0 <= i < |s| ==> s[i] in s;
  }

  lemma {:induction false} CapitalOrDigit(c: char)
    ensures UpperOrDigit(c) <==> c in "ABCDEFGHIJKLMNOPQRSTUVWXYZ0123456789"
  {
  }

  lemma {:induction false} VersionIsChecked(s: string)
    ensures BundleVersion(s) <==> MadeOf(s, "0123456789") && exists c :: c in s && c in "123456789"
  {
    forall c | c in s
      ensures ('0' <= c <= '9' <==> c in "0123456789") && (c in "123456789" <==> c in "0123456789" && c != '0')
    {
      Digit(c);
    }
    assert forall i :: 0 <= i < |s| ==> s[i] in s;
  }

  lemma {:induction false} Digit(c: char)
    ensures ('0' <= c <= '9' <==> c in "0123456789") && (c in "123456789" <==> c in "0123456789" && c != '0')
  {
  }

  /** An error is told in the helper's words, or by its code if it has none. */
  lemma {:induction false} ErrorIsTold(code: string, message: Option<string>)
    ensures message.Some? && message.value != "" ==> ErrorText(code, message) == message.value
    ensures message in {None, Some("")} ==> exists before, after :: ErrorText(code, message) == before + code + after
  {
    assert ErrorText(code, None) == "Updater error: " + code + ". Recheck the release or rebuild the app.";
  }

  /** The one message that is accepted as a completed download, and the one as a verification. */
  lemma {:induction false} AcceptedExactly(a: Approval, line: seq<Byte>, path: Path, teamId: string, version: string)
    ensures DecodeOperation(a, line) == Ok(Finished(Ok(Downloaded(path))))
       <==> WholeFrame(line) && a.operation == Download
            && a.parse(line) == Some(Envelope(1, false, DownloadedEvent(a.expected, path)))
            && path.absolute && path.fileName == Some(a.expected.name)
    ensures DecodeOperation(a, line) == Ok(Finished(Ok(Verified(teamId, version))))
       <==> WholeFrame(line) && a.operation.Verify? && Publisher(teamId, version)
            && exists archive: Path {:trigger VerifiedEvent(a.expected, archive, teamId, version)} ::
                 a.parse(line) == Some(Envelope(1, true, VerifiedEvent(a.expected, archive, teamId, version)))
                 && archive.absolute && archive.text == a.operation.archive.text
  {
    PublisherIsChecked(teamId, version);
    if a.parse(line).Some? && a.parse(line).value.event.VerifiedEvent? {
      var e := a.parse(line).value.event;
      assert e == VerifiedEvent(e.artifact, e.archive, e.teamId, e.bundleVersion);
    }
  }

  /** How frames are decoded, and the approved size. */
  datatype Context = Context(size: nat, decode: seq<Byte> -> Result<Validated, Error>) {
    /** Only whole frames are accepted, and no progress past the approved size. */
    ghost predicate Valid() {
      forall line :: decode(line).Ok? ==>
        && line != [] && |line| <= MAX_EVENT_BYTES && line[|line| - 1] == NEWLINE
        && (decode(line).value.ProgressUpdate? ==> decode(line).value.progress.downloaded <= size)
    }
  }

  function Decoding(a: Approval): (c: Context)
    ensures c.Valid()
  {
    Context(a.expected.size, (line: seq<Byte>) => DecodeOperation(a, line))
  }

  // ---------------------------------------------------------------- the reference: one byte at a time

  /** What becomes of a progress update that is sent to the view: nothing is sent while draining. */
  datatype Delivery = Sent | Closed | Stalled

  datatype State = State(
    line: seq<Byte>, result: Option<Result<Outcome, Error>>, lastDownloaded: nat, failed: Option<Error>)

  const START := State([], None, 0, None)

  /** A finished frame: valid ones empty the buffer. */
  function Frame(c: Context, s: State): State {
    if s.result.Some? then s.(failed := Some(AfterTerminal))
    else
      match c.decode(s.line)
      case Err(e) => s.(failed := Some(e))
      case Ok(Finished(r)) => s.(line := [], result := Some(r))
      case Ok(ProgressUpdate(p)) =>
        if p.downloaded < s.lastDownloaded then s.(line := [], failed := Some(Backwards))
        else s.(line := [], lastDownloaded := p.downloaded)
  }

  predicate FrameEnds(line: seq<Byte>) {
    line != [] && (line[|line| - 1] == NEWLINE || |line| > MAX_EVENT_BYTES)
  }

  function Feed(c: Context, s: State, b: Byte): State {
    if s.failed.Some? then s
    else
      var more := s.(line := s.line + [b]);
      if FrameEnds(more.line) then Frame(c, more) else more
  }

  function FeedAll(c: Context, s: State, bytes: seq<Byte>): State {
    if bytes == [] then s else Feed(c, FeedAll(c, s, bytes[..|bytes| - 1]), bytes[|bytes| - 1])
  }

  /** The end of the stream: an unfinished frame is an error. */
  function AtEnd(c: Context, s: State): State {
    if s.failed.Some? || s.line == [] then s else Frame(c, s)
  }

  function Whole(c: Context, bytes: seq<Byte>): State {
    AtEnd(c, FeedAll(c, START, bytes))
  }

  lemma {:induction false} FeedAppend(c: Context, s: State, a: seq<Byte>, b: seq<Byte>)
    ensures FeedAll(c, s, a + b) == FeedAll(c, FeedAll(c, s, a), b)
    decreases |b|
  {
    if b == [] {
      assert a + b == a;
    } else {
      assert (a + b)[..|a + b| - 1] == a + b[..|b| - 1];
      FeedAppend(c, s, a, b[..|b| - 1]);
    }
  }

  // ---------------------------------------------------------------- what every state keeps

  /** Between frames: a part of one, and a progress that was approved. */
  ghost predicate Between(c: Context, s: State) {
    s.failed.None? && !FrameEnds(s.line) && NEWLINE !in s.line && s.lastDownloaded <= c.size
  }

  /** The buffer holds at most one byte more than a frame may have, and progress never passes the approved size. */
  ghost predicate Sound(c: Context, s: State) {
    && |s.line| <= MAX_EVENT_BYTES + 1 && s.lastDownloaded <= c.size
    && (s.failed.None? ==> Between(c, s))
  }

  lemma {:induction false} FeedIsSound(c: Context, s: State, b: Byte)
    requires c.Valid() && Sound(c, s)
    ensures Sound(c, Feed(c, s, b)) && s.lastDownloaded <= Feed(c, s, b).lastDownloaded
  {
  }

  /** On any stream of bytes the buffer stays bounded and accepted progress never decreases. */
  lemma {:induction false} StreamIsSound(c: Context, s: State, bytes: seq<Byte>)
    requires c.Valid() && Sound(c, s)
    ensures Sound(c, FeedAll(c, s, bytes)) && s.lastDownloaded <= FeedAll(c, s, bytes).lastDownloaded
    decreases |bytes|
  {
    if bytes != [] {
      StreamIsSound(c, s, bytes[..|bytes| - 1]);
      FeedIsSound(c, FeedAll(c, s, bytes[..|bytes| - 1]), bytes[|bytes| - 1]);
    }
  }

  lemma {:induction false} DecodedIsApproved(a: Approval, line: seq<Byte>)
    ensures var r := DecodeOperation(a, line);
      r.Ok? && r.value.Finished? && r.value.result.Ok? ==> Approved(a, r.value.result.value)
  {
  }

  /** A part of these bytes is the very message that reports this outcome. */
  ghost predicate Said(a: Approval, bytes: seq<Byte>, o: Outcome) {
    exists i, j :: 0 <= i <= j <= |bytes| && DecodeOperation(a, bytes[i..j]) == Ok(Finished(Ok(o)))
  }

  lemma {:induction false} SaidBefore(a: Approval, bytes: seq<Byte>, n: nat, o: Outcome)
    requires n <= |bytes| && Said(a, bytes[..n], o)
    ensures Said(a, bytes, o)
  {
    var i, j :| 0 <= i <= j <= |bytes[..n]| && DecodeOperation(a, bytes[..n][i..j]) == Ok(Finished(Ok(o)));
    assert bytes[..n][i..j] == bytes[i..j];
  }

  /** A good result of a state after these bytes was said in them, and the buffer holds the last of them. */
  ghost predicate Explained(a: Approval, bytes: seq<Byte>, s: State) {
    && (s.failed.None? ==> |s.line| <= |bytes| && s.line == bytes[|bytes| - |s.line|..])
    && (s.result.Some? && s.result.value.Ok? ==> Said(a, bytes, s.result.value.value))
  }

  lemma {:induction false} FrameIsExplained(a: Approval, bytes: seq<Byte>, s: State)
    requires Explained(a, bytes, s) && s.failed.None?
    ensures Explained(a, bytes, Frame(Decoding(a), s))
  {
    var i := |bytes| - |s.line|;
    assert bytes[i..|bytes|] == s.line;
  }

  /** One byte more, before it is looked at. */
  lemma {:induction false} ByteIsExplained(a: Approval, bytes: seq<Byte>, front: seq<Byte>, b: Byte, s: State)
    requires bytes == front + [b] && Explained(a, front, s)
    ensures Explained(a, bytes, if s.failed.None? then s.(line := s.line + [b]) else s)
  {
    assert bytes[..|front|] == front;
    if s.result.Some? && s.result.value.Ok? {
      SaidBefore(a, bytes, |front|, s.result.value.value);
    }
    if s.failed.None? {
      assert front == front[..|front| - |s.line|] + s.line;
    }
  }

  lemma {:induction false} FeedIsExplained(a: Approval, bytes: seq<Byte>, front: seq<Byte>, b: Byte, s: State)
    requires bytes == front + [b] && Explained(a, front, s)
    ensures Explained(a, bytes, Feed(Decoding(a), s, b))
  {
    ByteIsExplained(a, bytes, front, b, s);
    if s.failed.None? {
      FrameIsExplained(a, bytes, s.(line := s.line + [b]));
    }
  }

  /** Whatever the helper sends, a session has a good result only from the message that reports it. */
  lemma {:induction false} OutcomeWasSaid(a: Approval, bytes: seq<Byte>)
    ensures Explained(a, bytes, FeedAll(Decoding(a), START, bytes))
    decreases |bytes|
  {
    if bytes != [] {
      var front, b := bytes[..|bytes| - 1], bytes[|bytes| - 1];
      OutcomeWasSaid(a, front);
      FeedIsExplained(a, bytes, front, b, FeedAll(Decoding(a), START, front));
    }
  }

  /** Also when the end of the stream is taken into account. */
  lemma {:induction false} WholeOutcomeWasSaid(a: Approval, bytes: seq<Byte>)
    ensures Explained(a, bytes, Whole(Decoding(a), bytes))
  {
    OutcomeWasSaid(a, bytes);
    var s := FeedAll(Decoding(a), START, bytes);
    if s.failed.None? {
      FrameIsExplained(a, bytes, s);
    }
  }

  /** What was said was approved. */
  lemma {:induction false} SaidIsApproved(a: Approval, bytes: seq<Byte>, o: Outcome)
    requires Said(a, bytes, o)
    ensures Approved(a, o)
  {
    var i, j :| 0 <= i <= j <= |bytes| && DecodeOperation(a, bytes[i..j]) == Ok(Finished(Ok(o)));
    DecodedIsApproved(a, bytes[i..j]);
  }

  lemma {:induction false} FailedStays(c: Context, s: State, bytes: seq<Byte>)
    requires s.failed.Some?
    ensures FeedAll(c, s, bytes) == s
    decreases |bytes|
  {
    if bytes != [] {
      FailedStays(c, s, bytes[..|bytes| - 1]);
    }
  }

  /** Bytes that end no frame before their last. */
  ghost predicate OneFrameAtMost(line: seq<Byte>, bytes: seq<Byte>) {
    && |line| + |bytes| <= MAX_EVENT_BYTES + 1
    && forall i :: 0 <= i < |bytes| - 1 ==> bytes[i] != NEWLINE
  }

  lemma {:induction false} FeedOneFrame(c: Context, s: State, bytes: seq<Byte>)
    requires Between(c, s) && OneFrameAtMost(s.line, bytes)
    ensures var more := s.(line := s.line + bytes);
      FeedAll(c, s, bytes) == if bytes != [] && FrameEnds(more.line) then Frame(c, more) else more
    decreases |bytes|
  {
    if bytes == [] {
      assert s.line + bytes == s.line;
    } else {
      var front, b := bytes[..|bytes| - 1], bytes[|bytes| - 1];
      FeedOneFrame(c, s, front);
      assert (s.line + front) + [b] == s.line + bytes;
      assert front != [] ==> (s.line + front)[|s.line + front| - 1] == bytes[|bytes| - 2];
    }
  }

  // ---------------------------------------------------------------- the session

  function Concat(chunks: seq<seq<Byte>>): seq<Byte> {
    if chunks == [] then [] else chunks[0] + Concat(chunks[1..])
  }

  /** The chunks that have arrived, none of them empty: an empty read would mean the end of the stream. */
  ghost predicate Arrived(chunks: seq<seq<Byte>>) {
    forall i :: 0 <= i < |chunks| ==> chunks[i] != []
  }

  lemma {:induction false} TakenFromChunks(read: seq<Byte>, chunks: seq<seq<Byte>>, n: nat)
    requires chunks != [] && n <= |chunks[0]|
    ensures var rest := if n == |chunks[0]| then chunks[1..] else [chunks[0][n..]] + chunks[1..];
      read + Concat(chunks) == (read + chunks[0][..n]) + Concat(rest)
  {
    var taken, left, tail := chunks[0][..n], chunks[0][n..], Concat(chunks[1..]);
    assert chunks[0] + tail == taken + (left + tail);
    Sequences.Reassociate(read, taken, left + tail);
    if n == |chunks[0]| {
      assert left + tail == tail;
    } else {
      assert ([left] + chunks[1..])[1..] == chunks[1..];
    }
  }

  /** What the caller sees when it looks: the call still waits, or is done. A waiting call may be dropped. */
  datatype Poll = Waiting | Ended | Broken(error: Error) | ViewGone

  /** The position behind the first newline of the first `limit` bytes, or how many of them there are. */
  function Line(bytes: seq<Byte>, limit: nat): (n: nat)
    ensures n <= |bytes| && n <= limit && (bytes != [] && limit > 0 ==> n > 0)
    ensures forall i :: 0 <= i < n - 1 ==> bytes[i] != NEWLINE
    ensures n < |bytes| && n < limit ==> n > 0 && bytes[n - 1] == NEWLINE
    decreases limit
  {
    if bytes == [] || limit == 0 then 0
    else if bytes[0] == NEWLINE then 1
    else 1 + Line(bytes[1..], limit - 1)
  }

  /** Whether sending to the view can come to this. */
  ghost predicate Can(view: Option<nat -> Delivery>, d: Delivery) {
    view.Some? && exists n: nat :: view.value(n) == d
  }

  class Session {
    const c: Context
    var line: seq<Byte>
    var result: Option<Result<Outcome, Error>>
    var lastDownloaded: nat

    ghost function Contents(): State
      reads this
    {
      State(line, result, lastDownloaded, None)
    }

    constructor (c: Context)
      ensures this.c == c && Contents() == START
    {
      this.c := c;
      line, result, lastDownloaded := [], None, 0;
    }

    /**
      Fills `line` up to a newline, `limit` bytes or the end of the stream. When it has to wait for more it
      leaves what it has in `line`.
    */
    method ReadUntil(chunks: seq<seq<Byte>>, eof: bool, limit: nat)
      returns (rest: seq<seq<Byte>>, length: nat, ready: bool, ghost read: seq<Byte>)
      requires Arrived(chunks)
      modifies this`line
      ensures line == old(line) + read && |read| == length <= limit
      ensures Arrived(rest) && read + Concat(rest) == Concat(chunks)
      ensures forall i :: 0 <= i < |read| - 1 ==> read[i] != NEWLINE
      ensures ready ==> length == limit || (read != [] && read[|read| - 1] == NEWLINE) || (eof && rest == [])
      ensures !ready ==> rest == [] && !eof && length < limit && NEWLINE !in read
    {
      rest, length, ready, read := chunks, 0, true, [];
      while length < limit
        invariant line == old(line) + read && |read| == length <= limit && ready
        invariant Arrived(rest) && read + Concat(rest) == Concat(chunks) && NEWLINE !in read
        decreases |rest|, limit - length
      {
        if rest == [] {
          ready := eof;
          return;
        }
        var n := Line(rest[0], limit - length);
        var taken := rest[0][..n];
        TakenFromChunks(read, rest, n);
        line, length, read := line + taken, length + n, read + taken;
        rest := if n == |rest[0]| then rest[1..] else [rest[0][n..]] + rest[1..];
        if taken[n - 1] == NEWLINE {
          return;
        }
      }
    }

    /** Checks the frame in the buffer and applies it. `count` updates were sent to the view so far. */
    method TakeFrame(view: Option<nat -> Delivery>, count: nat) returns (turn: Turn, sent: seq<Progress>)
      requires line != []
      modifies this
      ensures var s := Frame(c, old(Contents()));
        if turn.Failed? then s.failed == Some(turn.error) && Contents() == s.(failed := None)
        else s == Contents() && line == []
      ensures (turn.Gone? ==> Can(view, Closed)) && (turn.Stuck? ==> Can(view, Stalled))
      ensures sent == [] || (view.Some? && turn.More? && sent == [sent[0]] && sent[0].downloaded == lastDownloaded)
    {
      sent := [];
      if result.Some? {
        return Failed(AfterTerminal), [];
      }
      var event := c.decode(line);
      if event.Err? {
        return Failed(event.error), [];
      }
      line := [];
      match event.value
      case Finished(finished) =>
        result := Some(finished);
        return More, [];
      case ProgressUpdate(update) =>
        if update.downloaded < lastDownloaded {
          return Failed(Backwards), [];
        }
        lastDownloaded := update.downloaded;
        if view.None? {
          return More, [];
        }
        var delivery := view.value(count);
        assert delivery != Sent ==> Can(view, delivery);
        match delivery
        case Closed => return Gone, [];
        case Stalled => return Stuck, [];
        case Sent => return More, [update];
    }

    /** Reads on in the current frame, as far as it may grow. */
    method FillFrame(chunks: seq<seq<Byte>>, eof: bool)
      returns (rest: seq<seq<Byte>>, length: nat, ready: bool, ghost read: seq<Byte>)
      requires c.Valid() && Arrived(chunks) && Between(c, Contents())
      modifies this`line
      ensures Arrived(rest) && read + Concat(rest) == Concat(chunks) && length == |read|
      ensures Contents() == old(Contents()).(line := old(line) + read)
      ensures FeedAll(c, old(Contents()), read)
           == if read != [] && FrameEnds(line) then Frame(c, Contents()) else Contents()
      ensures !ready || line == [] ==> Between(c, Contents())
      ensures if ready then FrameEnds(line) || (eof && rest == []) else !eof && rest == []
    {
      ghost var before := Contents();
      rest, length, ready, read := ReadUntil(chunks, eof, MAX_EVENT_BYTES + 1 - |line|);
      FrameRead(c, before, [], before, read);
      assert [] + read == read;
    }

    /** One turn of the receiving loop: a frame, or the reason to stop. */
    method ReceiveFrame(chunks: seq<seq<Byte>>, eof: bool, view: Option<nat -> Delivery>, count: nat)
      returns (rest: seq<seq<Byte>>, stop: Option<Poll>, sent: seq<Progress>, ghost read: seq<Byte>)
      requires c.Valid() && Arrived(chunks) && Between(c, Contents())
      modifies this
      ensures Arrived(rest) && read + Concat(rest) == Concat(chunks)
      ensures stop.Some? ==>
        sent == [] && Received(c, old(Contents()), Contents(), read, rest == [], eof, view, stop.value)
      ensures stop.None? ==>
        && read != [] && Contents() == FeedAll(c, old(Contents()), read) && Between(c, Contents())
        && old(lastDownloaded) <= lastDownloaded
      ensures sent == [] || (view.Some? && |sent| == 1 && sent[0].downloaded == lastDownloaded)
    {
      ghost var before := Contents();
      var length, ready;
      rest, length, ready, read := FillFrame(chunks, eof);
      ghost var more := Contents();
      if !ready || (length == 0 && line == []) {
        stop, sent := Some(if ready then Ended else Waiting), [];
        NoFrameReached(c, before, more, read, rest == [], eof, view, ready);
      } else {
        FrameAtEnd(c, more);
        var turn;
        turn, sent := TakeFrame(view, count);
        stop := StopFor(turn);
        FrameReached(c, before, more, read, Contents(), rest == [], eof, view, turn);
      }
    }

    /**
      Receives frames until the stream ends, something is wrong, or it has to wait. `view` says what
      becomes of each update that is sent to the view; while draining there is none.
    */
    method Receive(chunks: seq<seq<Byte>>, eof: bool, view: Option<nat -> Delivery>)
      returns (rest: seq<seq<Byte>>, poll: Poll, sent: seq<Progress>, ghost fed: seq<Byte>)
      requires c.Valid() && Arrived(chunks) && Between(c, Contents())
      modifies this
      ensures Arrived(rest) && fed + Concat(rest) == Concat(chunks)
      ensures Received(c, old(Contents()), Contents(), fed, rest == [], eof, view, poll)
      ensures Rising(sent, old(lastDownloaded), c.size) && (view.None? ==> sent == [])
    {
      rest, fed, sent := chunks, [], [];
      ghost var began := Contents();
      while true
        invariant Arrived(rest) && fed + Concat(rest) == Concat(chunks)
        invariant Contents() == FeedAll(c, began, fed) && Between(c, Contents())
        invariant Rising(sent, old(lastDownloaded), lastDownloaded) && (view.None? ==> sent == [])
        decreases |Concat(rest)|
      {
        ghost var before := Contents();
        var left, stop, update, read := ReceiveFrame(rest, eof, view, |sent|);
        FeedAppend(c, began, fed, read);
        Sequences.Reassociate(fed, read, Concat(left));
        rest, fed := left, fed + read;
        if stop.Some? {
          return rest, stop.value, sent, fed;
        }
        RisingMore(sent, update, old(lastDownloaded), before.lastDownloaded, lastDownloaded);
        sent := sent + update;
      }
    }
  }

  /** What a frame means for the loop: go on, stop with an error, or the view is gone or does not take the update. */
  datatype Turn = More | Failed(error: Error) | Gone | Stuck

  function StopFor(turn: Turn): Option<Poll> {
    match turn
    case More => None
    case Failed(e) => Some(Broken(e))
    case Gone => Some(ViewGone)
    case Stuck => Some(Waiting)
  }

  /** The updates sent to the view never go back or past a bound. */
  ghost predicate Rising(sent: seq<Progress>, from: nat, bound: nat) {
    && from <= bound
    && (forall i :: 0 <= i < |sent| ==> from <= sent[i].downloaded <= bound)
    && forall i, j :: 0 <= i < j < |sent| ==> sent[i].downloaded <= sent[j].downloaded
  }

  lemma {:induction false} RisingMore(sent: seq<Progress>, update: seq<Progress>, from: nat, bound: nat, next: nat)
    requires Rising(sent, from, bound) && bound <= next
    requires update == [] || (|update| == 1 && update[0].downloaded == next)
    ensures Rising(sent + update, from, next)
  {
  }

  lemma {:induction false} FrameRead(c: Context, began: State, fed: seq<Byte>, before: State, read: seq<Byte>)
    requires before == FeedAll(c, began, fed) && Between(c, before) && OneFrameAtMost(before.line, read)
    ensures var more := before.(line := before.line + read);
      && FeedAll(c, began, fed + read) == (if read != [] && FrameEnds(more.line) then Frame(c, more) else more)
      && (NEWLINE !in read && |more.line| <= MAX_EVENT_BYTES ==> Between(c, more))
  {
    FeedOneFrame(c, before, read);
    FeedAppend(c, began, fed, read);
  }

  /** What is no whole frame is refused. */
  lemma {:induction false} FrameAtEnd(c: Context, s: State)
    requires c.Valid() && s.line != [] && s.failed.None? && s.lastDownloaded <= c.size
    ensures !FrameEnds(s.line) ==> Frame(c, s).failed.Some?
    ensures Frame(c, s).failed.None? ==> Between(c, Frame(c, s)) && s.lastDownloaded <= Frame(c, s).lastDownloaded
  {
  }

  /** What a call that took the bytes `fed` has done to a session, by the reference. */
  ghost predicate Received(
    c: Context, before: State, after: State, fed: seq<Byte>, drained: bool, eof: bool,
    view: Option<nat -> Delivery>, poll: Poll)
  {
    Reached(c, FeedAll(c, before, fed), after, drained && eof, drained, view, poll)
  }

  /** What follows when no frame was completed: the call waits, or the stream has ended between frames. */
  lemma {:induction false} NoFrameReached(
    c: Context, before: State, more: State, read: seq<Byte>, drained: bool, eof: bool, view: Option<nat -> Delivery>,
    ready: bool)
    requires FeedAll(c, before, read) == more && Between(c, more) && drained
    requires if ready then eof && more.line == [] else !eof
    ensures Received(c, before, more, read, drained, eof, view, if ready then Ended else Waiting)
  {
  }

  /** What follows from the outcome of one frame. */
  lemma {:induction false} FrameReached(
    c: Context, before: State, more: State, read: seq<Byte>, after: State, drained: bool, eof: bool,
    view: Option<nat -> Delivery>, turn: Turn)
    requires c.Valid() && Between(c, before) && more == before.(line := before.line + read) && more.line != []
    requires FeedAll(c, before, read) == if read != [] && FrameEnds(more.line) then Frame(c, more) else more
    requires !FrameEnds(more.line) ==> (drained && eof)
    requires !FrameEnds(more.line) ==> Frame(c, more).failed.Some?
    requires Frame(c, more).failed.None? ==> Between(c, Frame(c, more))
    requires if turn.Failed? then Frame(c, more).failed == Some(turn.error) && after == Frame(c, more).(failed := None)
             else after == Frame(c, more)
    requires after.failed.None? && (turn.Gone? ==> Can(view, Closed)) && (turn.Stuck? ==> Can(view, Stalled))
    ensures turn.More? ==> read != [] && after == FeedAll(c, before, read) && Between(c, after)
    ensures !turn.More? ==> Received(c, before, after, read, drained, eof, view, StopFor(turn).value)
  {
    if read == [] {
      assert before.line + read == before.line;
    }
  }

  /** How a call leaves the session when the reference has reached `s`. */
  ghost predicate Reached(
    c: Context, s: State, after: State, ended: bool, drained: bool, view: Option<nat -> Delivery>, poll: Poll)
  {
    match poll
    case Waiting => after == s && Between(c, s) && ((drained && !ended) || Can(view, Stalled))
    case Ended => after == s && Between(c, s) && ended && s.line == []
    case ViewGone => after == s && Between(c, s) && Can(view, Closed)
    case Broken(e) =>
      var last := if ended then AtEnd(c, s) else s;
      last.failed == Some(e) && after == last.(failed := None)
  }

  // ---------------------------------------------------------------- streams that are as they should be

  /** A line of the stream: nothing but its last byte is a newline. */
  ghost predicate OneLine(line: seq<Byte>) {
    && 0 < |line| <= 16384 && line[|line| - 1] == NEWLINE
    && forall i :: 0 <= i < |line| - 1 ==> line[i] != NEWLINE
  }

  /** Progress that never goes back, from `last` on, on lines that are accepted. */
  ghost predicate GoodProgress(a: Approval, lines: seq<seq<Byte>>, updates: seq<Progress>, last: nat) {
    if lines == [] then updates == []
    else
      && updates != [] && OneLine(lines[0]) && DecodeOperation(a, lines[0]) == Ok(ProgressUpdate(updates[0]))
      && last <= updates[0].downloaded && GoodProgress(a, lines[1..], updates[1..], updates[0].downloaded)
  }

  /** Between two lines, after progress up to `last`. */
  function Resting(last: nat): State {
    State([], None, last, None)
  }

  lemma {:induction false} OneLineFed(c: Context, line: seq<Byte>, last: nat)
    requires OneLine(line) && last <= c.size
    ensures FeedAll(c, Resting(last), line) == Frame(c, State(line, None, last, None))
  {
    FeedOneFrame(c, Resting(last), line);
    assert [] + line == line;
  }

  lemma {:induction false} FinishedFrame(a: Approval, line: seq<Byte>, last: nat, r: Result<Outcome, Error>)
    requires DecodeOperation(a, line) == Ok(Finished(r))
    ensures Frame(Decoding(a), State(line, None, last, None)) == State([], Some(r), last, None)
  {
  }

  lemma {:induction false} ProgressFrame(a: Approval, line: seq<Byte>, last: nat, p: Progress)
    requires DecodeOperation(a, line) == Ok(ProgressUpdate(p)) && last <= p.downloaded
    ensures Frame(Decoding(a), State(line, None, last, None)) == Resting(p.downloaded) && p.downloaded <= a.expected.size
  {
  }

  lemma {:induction false} ProgressFed(a: Approval, c: Context, lines: seq<seq<Byte>>, updates: seq<Progress>, last: nat)
    returns (next: nat)
    requires c == Decoding(a) && GoodProgress(a, lines, updates, last) && last <= c.size
    ensures FeedAll(c, Resting(last), Concat(lines)) == Resting(next) && next <= c.size
    decreases |lines|
  {
    if lines == [] {
      next := last;
    } else {
      OneLineFed(c, lines[0], last);
      ProgressFrame(a, lines[0], last, updates[0]);
      FeedAppend(c, Resting(last), lines[0], Concat(lines[1..]));
      next := ProgressFed(a, c, lines[1..], updates[1..], updates[0].downloaded);
    }
  }

  /**
    A stream of accepted progress that never goes back, and then one accepted message that ends the session, is
    taken to the end without an error, with that message's result.
  */
  lemma {:induction false} GoodStreamsSucceed(
    a: Approval, lines: seq<seq<Byte>>, updates: seq<Progress>, last: seq<Byte>, r: Result<Outcome, Error>)
    requires GoodProgress(a, lines, updates, 0) && OneLine(last) && DecodeOperation(a, last) == Ok(Finished(r))
    ensures var s := Whole(Decoding(a), Concat(lines) + last); s.failed.None? && s.result == Some(r)
  {
    var c := Decoding(a);
    var n := ProgressFed(a, c, lines, updates, 0);
    FeedAppend(c, START, Concat(lines), last);
    OneLineFed(c, last, n);
    FinishedFrame(a, last, n, r);
  }

  // ---------------------------------------------------------------- chunks do not matter

  /** The state after several calls, each of which took some bytes. */
  function FeedPieces(c: Context, s: State, pieces: seq<seq<Byte>>): State
    decreases |pieces|
  {
    if pieces == [] then s else FeedPieces(c, FeedAll(c, s, pieces[0]), pieces[1..])
  }

  /** However a stream is cut into pieces, by chunks or by calls that were dropped and repeated, the end is the same. */
  lemma {:induction false} PiecesDoNotMatter(c: Context, s: State, pieces: seq<seq<Byte>>)
    ensures FeedPieces(c, s, pieces) == FeedAll(c, s, Concat(pieces))
    decreases |pieces|
  {
    if pieces != [] {
      PiecesDoNotMatter(c, FeedAll(c, s, pieces[0]), pieces[1..]);
      FeedAppend(c, s, pieces[0], Concat(pieces[1..]));
    }
  }

  // ---------------------------------------------------------------- one operation

  /** How the helper's exit was observed. */
  datatype Exit = Exited(success: bool) | WaitError | NoExit

  /** What ended the first wait, other than the stream or an error. */
  datatype Interrupt = ByCancel | ByTimeout

  predicate Completed(result: Option<Result<Outcome, Error>>) {
    result.Some? && result.value.Ok? && (result.value.value.Downloaded? || result.value.value.Verified?)
  }

  function Decide(failed: Option<Error>, result: Option<Result<Outcome, Error>>, cancelled: bool, exit: Exit)
    : Result<Outcome, Error>
  {
    if exit.WaitError? then Err(WaitFailed)
    else if exit.NoExit? then Err(NotExiting)
    else if failed.Some? then Err(failed.value)
    else if Completed(result) && !exit.success then Err(FailedAfterDownload)
    else if Completed(result) then result.value
    else if cancelled then Ok(Cancelled)
    else if result.None? then Err(NothingCompleted)
    else result.value
  }

  function OrElse<T>(first: Option<T>, second: T): Option<T> {
    if first.Some? then first else Some(second)
  }

  /**
    What an operation is decided on: the whole stream, or when it did not end in time, the bytes that came and
    the time-out, unless they were wrong before.
  */
  function Seen(c: Context, early: seq<Byte>, late: seq<Byte>, interrupt: Option<Interrupt>, drained: bool): State {
    match interrupt
    case None => Whole(c, early)
    case Some(ByTimeout) =>
      var s := FeedAll(c, START, early);
      s.(failed := OrElse(s.failed, TimedOut))
    case Some(ByCancel) =>
      if drained then Whole(c, early + late)
      else
        var s := FeedAll(c, START, early + late);
        s.(failed := OrElse(s.failed, NotCancelling))
  }

  /** The operation ended with this error, if the helper's exit was seen. */
  predicate EndsWith(outcome: Result<Outcome, Error>, e: Error, exit: Exit) {
    outcome == Decide(Some(e), None, false, exit)
  }

  /**
    What the caller is told, by what was seen: a helper that cannot be waited for, or does not exit, wins over
    everything; then an error of the stream; then a completed outcome, which needs a successful exit; then the
    cancellation; then what the helper itself reported, if it did.
  */
  ghost predicate Answers(s: State, cancelled: bool, exit: Exit, outcome: Result<Outcome, Error>) {
    && (exit == WaitError ==> outcome == Err(WaitFailed))
    && (exit == NoExit ==> outcome == Err(NotExiting))
    && (exit.Exited? && s.failed.Some? ==> outcome == Err(s.failed.value))
    && (exit.Exited? && s.failed.None? ==> AnswersStream(s.result, cancelled, exit.success, outcome))
  }

  ghost predicate AnswersStream(
    result: Option<Result<Outcome, Error>>, cancelled: bool, success: bool, outcome: Result<Outcome, Error>)
  {
    && (forall o :: result == Some(Ok(o)) && o != Cancelled && success ==> outcome == Ok(o))
    && (forall o :: result == Some(Ok(o)) && o != Cancelled && !success ==> outcome == Err(FailedAfterDownload))
    && (result == Some(Ok(Cancelled)) ==> outcome == Ok(Cancelled))
    && (forall e :: result == Some(Err(e)) ==> outcome == if cancelled then Ok(Cancelled) else Err(e))
    && (result == None ==> outcome == if cancelled then Ok(Cancelled) else Err(NothingCompleted))
  }

  lemma {:induction false} DecisionAnswers(s: State, cancelled: bool, exit: Exit)
    ensures Answers(s, cancelled, exit, Decide(s.failed, s.result, cancelled, exit))
  {
  }

  /** The view takes every update. */
  ghost predicate AlwaysTakes(view: nat -> Delivery) {
    forall n :: view(n) == Sent
  }

  /**
    Owns the helper for one operation. `early` arrives during the first wait, which goes on to the end of
    the stream unless it is interrupted; `late` arrives while draining after a cancellation, and `drained`
    tells whether the stream then ends in time. A view that is closed, or never takes an update, ends the
    operation with its own error, except that a cancellation still interrupts the second.
  */
  method OwnCommand(
    c: Context, alreadyCancelled: bool, early: seq<seq<Byte>>, interrupt: Option<Interrupt>, late: seq<seq<Byte>>,
    drained: bool, view: nat -> Delivery, exit: Exit)
    returns (outcome: Result<Outcome, Error>)
    requires c.Valid() && Arrived(early) && Arrived(late)
    ensures alreadyCancelled ==> outcome == Ok(Cancelled)
    ensures !alreadyCancelled ==>
      var s := Seen(c, Concat(early), Concat(late), interrupt, drained);
      || outcome == Decide(s.failed, s.result, interrupt == Some(ByCancel), exit)
      || (Can(Some(view), Closed) && EndsWith(outcome, ViewClosed, exit))
      || (Can(Some(view), Stalled) && interrupt != Some(ByCancel) && EndsWith(outcome, TimedOut, exit))
    ensures !alreadyCancelled && AlwaysTakes(view) ==>
      Answers(Seen(c, Concat(early), Concat(late), interrupt, drained), interrupt == Some(ByCancel), exit, outcome)
  {
    if alreadyCancelled {
      return Ok(Cancelled);
    }
    var session := new Session(c);
    var rest, poll, sent, fed := session.Receive(early, interrupt.None?, Some(view));
    var cancelled := poll.Waiting? && interrupt == Some(ByCancel);
    var failed := match poll
      case Waiting => if cancelled then None else Some(TimedOut)
      case Ended => None
      case Broken(e) => Some(e)
      case ViewGone => Some(ViewClosed);
    if cancelled {
      ArrivedBoth(rest, late);
      ghost var before := session.Contents();
      var left, again, none, more := session.Receive(rest + late, drained, None);
      failed := match again
        case Waiting => Some(NotCancelling)
        case Ended => None
        case Broken(e) => Some(e)
        case ViewGone => Some(ViewClosed);
      CancelledStream(c, fed, before, rest, late, more, left, session.Contents(), again, drained);
    } else {
      FirstStream(c, fed, rest, session.Contents(), view, poll, interrupt, late, drained);
    }
    outcome := Decide(failed, session.result, cancelled, exit);
    DecisionAnswers(Seen(c, Concat(early), Concat(late), interrupt, drained), interrupt == Some(ByCancel), exit);
  }

  lemma {:induction false} ArrivedBoth(a: seq<seq<Byte>>, b: seq<seq<Byte>>)
    requires Arrived(a) && Arrived(b)
    ensures Arrived(a + b) && Concat(a + b) == Concat(a) + Concat(b)
    decreases |a|
  {
    if a == [] {
      assert a + b == b;
    } else {
      assert (a + b)[1..] == a[1..] + b;
      ArrivedBoth(a[1..], b);
      Sequences.Reassociate(a[0], Concat(a[1..]), Concat(b));
    }
  }

  /** What one call saw is what the whole stream says, if the call ended with the stream or an error. */
  lemma {:induction false} StreamDecided(
    c: Context, s: State, fed: seq<Byte>, unread: seq<Byte>, after: State, ended: bool, drained: bool,
    view: Option<nat -> Delivery>, poll: Poll)
    requires Reached(c, FeedAll(c, s, fed), after, ended, drained, view, poll) && (poll.Ended? || poll.Broken?)
    requires ended ==> unread == []
    ensures var whole := AtEnd(c, FeedAll(c, s, fed + unread));
      && whole.result == after.result && whole.failed == if poll.Broken? then Some(poll.error) else None
  {
    FeedAppend(c, s, fed, unread);
    if unread == [] {
      assert fed + unread == fed;
    }
    if poll.Broken? && !ended {
      FailedStays(c, FeedAll(c, s, fed), unread);
    }
  }

  /** When the first call ends the operation, it saw what the operation is decided on, or the view ended it. */
  lemma {:induction false} FirstStream(
    c: Context, fed: seq<Byte>, rest: seq<seq<Byte>>, after: State, view: nat -> Delivery, poll: Poll,
    interrupt: Option<Interrupt>, late: seq<seq<Byte>>, drained: bool)
    requires Received(c, START, after, fed, rest == [], interrupt.None?, Some(view), poll)
    requires !(poll.Waiting? && interrupt == Some(ByCancel))
    ensures var s := Seen(c, fed + Concat(rest), Concat(late), interrupt, drained);
      match poll
      case Waiting => Can(Some(view), Stalled) || s.failed == Some(TimedOut)
      case Ended => s.failed.None? && s.result == after.result && interrupt.None?
      case Broken(e) => s.failed == Some(e)
      case ViewGone => Can(Some(view), Closed)
  {
    match poll
    case Waiting =>
      assert rest == [] ==> fed + Concat(rest) == fed;
    case Ended =>
      StreamDecided(c, START, fed, Concat(rest), after, true, true, Some(view), poll);
    case Broken(e) =>
      var ended := rest == [] && interrupt.None?;
      BrokenStays(c, START, fed, Concat(rest), after, ended, rest == [], Some(view), e);
      Sequences.Reassociate(fed, Concat(rest), Concat(late));
      if !ended {
        BrokenStays(c, START, fed, Concat(rest) + Concat(late), after, ended, rest == [], Some(view), e);
      }
    case ViewGone =>
  }

  /** A stream that is wrong stays wrong. */
  lemma {:induction false} BrokenStays(
    c: Context, s: State, fed: seq<Byte>, unread: seq<Byte>, after: State, ended: bool, drained: bool,
    view: Option<nat -> Delivery>, e: Error)
    requires Reached(c, FeedAll(c, s, fed), after, ended, drained, view, Broken(e))
    requires ended ==> unread == []
    ensures AtEnd(c, FeedAll(c, s, fed + unread)).failed == Some(e)
    ensures !ended ==> FeedAll(c, s, fed + unread).failed == Some(e)
  {
    StreamDecided(c, s, fed, unread, after, ended, drained, view, Broken(e));
    FeedAppend(c, s, fed, unread);
    if !ended {
      FailedStays(c, FeedAll(c, s, fed), unread);
    }
  }

  /** What the call that drains the stream saw is what the operation is decided on. */
  lemma {:induction false} CancelledStream(
    c: Context, fed: seq<Byte>, before: State, rest: seq<seq<Byte>>, late: seq<seq<Byte>>, more: seq<Byte>,
    left: seq<seq<Byte>>, after: State, poll: Poll, eof: bool)
    requires before == FeedAll(c, START, fed) && Arrived(rest) && Arrived(late)
    requires more + Concat(left) == Concat(rest + late)
    requires Received(c, before, after, more, left == [], eof, None, poll)
    ensures var s := Seen(c, fed + Concat(rest), Concat(late), Some(ByCancel), eof);
      match poll
      case Waiting => s.failed == Some(NotCancelling)
      case Ended => s.failed.None? && s.result == after.result
      case Broken(e) => s.failed == Some(e)
      case ViewGone => false
  {
    ArrivedBoth(rest, late);
    Sequences.Reassociate(fed, Concat(rest), Concat(late));
    FeedAppend(c, START, fed, Concat(rest + late));
    match poll
    case Waiting =>
      assert more + Concat(left) == more;
    case Ended =>
      StreamDecided(c, before, more, Concat(left), after, true, true, None, poll);
    case Broken(e) =>
      BrokenStays(c, before, more, Concat(left), after, left == [] && eof, left == [], None, e);
  }

  lemma {:induction false} SeenWasSaid(
    a: Approval, early: seq<Byte>, late: seq<Byte>, interrupt: Option<Interrupt>, drained: bool)
    ensures var s := Seen(Decoding(a), early, late, interrupt, drained);
      Explained(a, if interrupt == Some(ByCancel) then early + late else early, s.(failed := Some(TimedOut)))
  {
    var bytes := if interrupt == Some(ByCancel) then early + late else early;
    OutcomeWasSaid(a, bytes);
    WholeOutcomeWasSaid(a, bytes);
  }

  /**
    One operation for an approved artifact. Whatever arrives and whenever it is interrupted, a download or a
    verification is only reported if the helper exited with success and sent the message that says so; that
    message was approved.
  */
  method RunOperation(
    a: Approval, alreadyCancelled: bool, early: seq<seq<Byte>>, interrupt: Option<Interrupt>, late: seq<seq<Byte>>,
    drained: bool, view: nat -> Delivery, exit: Exit)
    returns (outcome: Result<Outcome, Error>)
    requires Arrived(early) && Arrived(late)
    ensures outcome.Ok? ==> Approved(a, outcome.value)
    ensures outcome.Ok? && outcome.value != Cancelled ==>
      && exit == Exited(true) && interrupt != Some(ByTimeout) && !alreadyCancelled
      && Said(a, Concat(early) + if interrupt.None? then [] else Concat(late), outcome.value)
    ensures outcome.Ok? && outcome.value != Cancelled ==>
      var s := Seen(Decoding(a), Concat(early), Concat(late), interrupt, drained);
      s.failed.None? && s.result == Some(outcome)
    ensures !alreadyCancelled && AlwaysTakes(view) ==>
      Answers(Seen(Decoding(a), Concat(early), Concat(late), interrupt, drained), interrupt == Some(ByCancel), exit, outcome)
  {
    outcome := OwnCommand(Decoding(a), alreadyCancelled, early, interrupt, late, drained, view, exit);
    SeenWasSaid(a, Concat(early), Concat(late), interrupt, drained);
    assert Concat(early) + [] == Concat(early);
    if outcome.Ok? && outcome.value != Cancelled {
      SaidIsApproved(a, Concat(early) + if interrupt.None? then [] else Concat(late), outcome.value);
    }
  }

  /**
    Cancelling changes the result of a stream only where nothing was completed: a completed download or
    verification is still reported, and so is an error of the protocol.
  */
  lemma {:induction false} CompletionWins(c: Context, stream: seq<Byte>, exit: Exit)
    ensures var s := Whole(c, stream);
      var kept, cancelled := Decide(s.failed, s.result, false, exit), Decide(s.failed, s.result, true, exit);
      cancelled == if !exit.Exited? || s.failed.Some? || Completed(s.result) then kept else Ok(Cancelled)
  {
  }
}
