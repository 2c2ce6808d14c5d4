// Incremental splitting of a character stream at a delimiter: the event splitter of
// handleStreamingPromptResponse ("\n\n") and the line framing of _drainBuffer ("\n").
module Framing {
  import opened Wrappers
  import opened Text
  import opened Seqs

  // The delimiter occurs in the text at position k.
  predicate At(text: string, delimiter: string, k: nat) {
    k + |delimiter| <= |text| && text[k..k + |delimiter|] == delimiter
  }

  // The first position, not before `from`, at which the delimiter occurs, or |text|.
  function Find(text: string, delimiter: string, from: nat): (i: nat)
    requires delimiter != "" && from <= |text|
    ensures from <= i <= |text| && (i < |text| ==> At(text, delimiter, i))
    ensures forall k: nat {:trigger At(text, delimiter, k)} :: from <= k < i ==> !At(text, delimiter, k)
    decreases |text| - from
  {
    if from == |text| || At(text, delimiter, from) then from else Find(text, delimiter, from + 1)
  }

  function IndexOf(text: string, delimiter: string): (i: nat)
    requires delimiter != ""
    ensures i <= |text| && (i < |text| ==> At(text, delimiter, i))
  {
    Find(text, delimiter, 0)
  }

  // The pieces between delimiters, which are found left to right without overlap.
  function Split(text: string, delimiter: string): (parts: seq<string>)
    requires delimiter != ""
    ensures parts != []
    decreases |text|
  {
    var i := IndexOf(text, delimiter);
    if i == |text| then [text]
    else [text[..i]] + Split(text[i + |delimiter|..], delimiter)
  }

  function Complete(parts: seq<string>): seq<string>
    requires parts != []
  {
    parts[..|parts| - 1]
  }

  function Rest(parts: seq<string>): string
    requires parts != []
  {
    parts[|parts| - 1]
  }

  lemma IndexUnique(text: string, delimiter: string, i: nat)
    requires delimiter != "" && At(text, delimiter, i)
    requires forall k: nat {:trigger At(text, delimiter, k)} :: k < i ==> !At(text, delimiter, k)
    ensures IndexOf(text, delimiter) == i
  {
  }

  lemma AtPrefix(a: string, b: string, delimiter: string, k: nat)
    requires k + |delimiter| <= |a|
    ensures At(a + b, delimiter, k) <==> At(a, delimiter, k)
  {
    assert (a + b)[k..k + |delimiter|] == a[k..k + |delimiter|];
  }

  // A delimiter found in a prefix of the text stays the first one.
  lemma IndexStable(a: string, b: string, delimiter: string)
    requires delimiter != "" && IndexOf(a, delimiter) < |a|
    ensures IndexOf(a + b, delimiter) == IndexOf(a, delimiter)
  {
    var i := IndexOf(a, delimiter);
    forall k: nat | k <= i ensures At(a + b, delimiter, k) <==> At(a, delimiter, k) {
      AtPrefix(a, b, delimiter, k);
    }
    IndexUnique(a + b, delimiter, i);
  }

  // Splitting the text gives `head`, then the pieces of `tail`.
  ghost predicate SplitsInto(text: string, delimiter: string, head: string, tail: string)
    requires delimiter != ""
  {
    Split(text, delimiter) == [head] + Split(tail, delimiter)
  }

  lemma SplitFirst(text: string, delimiter: string, head: string, tail: string)
    requires delimiter != "" && IndexOf(text, delimiter) < |text|
    requires head == text[..IndexOf(text, delimiter)] && tail == text[IndexOf(text, delimiter) + |delimiter|..]
    ensures SplitsInto(text, delimiter, head, tail)
  {
  }

  lemma Prepend(piece: string, parts: seq<string>, more: seq<string>)
    requires parts != []
    ensures [piece] + (Complete(parts) + more) == Complete([piece] + parts) + more
    ensures Rest([piece] + parts) == Rest(parts)
  {
    Associative([piece], Complete(parts), more);
    assert Complete([piece] + parts) == [piece] + Complete(parts);
  }

  lemma Alone(piece: string, more: seq<string>)
    ensures Complete([piece]) + more == more && Rest([piece]) == piece
  {
  }

  lemma CutAt(a: string, b: string, i: nat, j: nat)
    requires i <= j <= |a|
    ensures (a + b)[..i] == a[..i] && (a + b)[j..] == a[j..] + b
  {
  }

  // The first piece of a stays the first piece of a + b.
  lemma SplitFirstLater(a: string, b: string, delimiter: string, head: string, tail: string)
    requires delimiter != "" && IndexOf(a, delimiter) < |a|
    requires head == a[..IndexOf(a, delimiter)] && tail == a[IndexOf(a, delimiter) + |delimiter|..]
    ensures SplitsInto(a + b, delimiter, head, tail + b)
  {
    var i := IndexOf(a, delimiter);
    IndexStable(a, b, delimiter);
    CutAt(a, b, i, i + |delimiter|);
    SplitFirst(a + b, delimiter, head, tail + b);
  }

  ghost predicate SplitsLater(a: string, b: string, delimiter: string)
    requires delimiter != ""
  {
    Split(a + b, delimiter) == Complete(Split(a, delimiter)) + Split(Rest(Split(a, delimiter)) + b, delimiter)
  }

  lemma SplitLaterStep(a: string, b: string, delimiter: string)
    requires delimiter != "" && IndexOf(a, delimiter) < |a|
    requires SplitsLater(a[IndexOf(a, delimiter) + |delimiter|..], b, delimiter)
    ensures SplitsLater(a, b, delimiter)
  {
    var i := IndexOf(a, delimiter);
    var tail := a[i + |delimiter|..];
    SplitFirstLater(a, b, delimiter, a[..i], tail);
    SplitFirst(a, delimiter, a[..i], tail);
    Prepend(a[..i], Split(tail, delimiter), Split(Rest(Split(tail, delimiter)) + b, delimiter));
  }

  // Splitting more text later gives what splitting it all at once gives: the pieces completed so
  // far, then the pieces of the leftover with the new text.
  lemma {:induction false} SplitLater(a: string, b: string, delimiter: string)
    requires delimiter != ""
    ensures SplitsLater(a, b, delimiter)
    decreases |a|
  {
    if IndexOf(a, delimiter) < |a| {
      SplitLater(a[IndexOf(a, delimiter) + |delimiter|..], b, delimiter);
      SplitLaterStep(a, b, delimiter);
    } else {
      Alone(a, Split(a + b, delimiter));
    }
  }

  // The text before the first delimiter holds none.
  lemma FirstPieceClean(text: string, delimiter: string)
    requires delimiter != ""
    ensures IndexOf(text[..IndexOf(text, delimiter)], delimiter) == IndexOf(text, delimiter)
  {
    var i := IndexOf(text, delimiter);
    var j := IndexOf(text[..i], delimiter);
    assert text[..i] + text[i..] == text;
    if j < i {
      AtPrefix(text[..i], text[i..], delimiter, j);
    }
  }

  // The pieces joined by the delimiter are the text, and no piece contains it.
  lemma {:induction false} SplitJoins(text: string, delimiter: string)
    requires delimiter != ""
    ensures Join(Split(text, delimiter), delimiter) == text
    ensures forall p :: p in Split(text, delimiter) ==> IndexOf(p, delimiter) == |p|
    decreases |text|
  {
    hide IndexOf;
    var i := IndexOf(text, delimiter);
    FirstPieceClean(text, delimiter);
    if i < |text| {
      var tail := text[i + |delimiter|..];
      SplitFirst(text, delimiter, text[..i], tail);
      SplitJoins(tail, delimiter);
      assert Split(text, delimiter)[1..] == Split(tail, delimiter);
      assert text == text[..i] + delimiter + tail;
    } else {
      assert text[..i] == text;
    }
  }

  // The separator search is independent of how the stream was cut into chunks.
  lemma FeedStep(pieces: seq<string>, buffer: string, text: string, chunk: string, delimiter: string)
    requires delimiter != "" && pieces + [buffer] == Split(text, delimiter)
    ensures var lines := Split(buffer + chunk, delimiter);
            (pieces + Complete(lines)) + [Rest(lines)] == Split(text + chunk, delimiter)
  {
    hide Split;
    var parts := Split(text, delimiter);
    assert Complete(parts) == pieces && Rest(parts) == buffer;
    SplitLater(text, chunk, delimiter);
    var lines := Split(buffer + chunk, delimiter);
    assert lines == Complete(lines) + [Rest(lines)];
    Associative(pieces, Complete(lines), [Rest(lines)]);
  }

  // What a consumer makes of the complete pieces, in order; None skips a piece.
  function Dispatch(pieces: seq<string>, select: string -> Option<string>): seq<string> {
    if pieces == [] then []
    else
      Dispatch(pieces[..|pieces| - 1], select) + match select(pieces[|pieces| - 1])
        case Some(payload) => [payload]
        case None => []
  }

  lemma {:induction false} DispatchAppend(a: seq<string>, b: seq<string>, select: string -> Option<string>)
    ensures Dispatch(a + b, select) == Dispatch(a, select) + Dispatch(b, select)
    decreases |b|
  {
    if b == [] {
      assert a + b == a;
    } else {
      assert (a + b)[..|a + b| - 1] == a + b[..|b| - 1];
      DispatchAppend(a, b[..|b| - 1], select);
    }
  }

  // A server-sent event of the prompt stream carries its payload after "data: ".
  function EventPayload(piece: string): Option<string> {
    if "data: " <= piece then Some(piece[6..]) else None
  }

  predicate Blank(line: string) {
    forall c :: c in line ==> IsSpace(c)
  }

  // The bridge skips blank lines of the agent's output.
  function LinePayload(line: string): Option<string> {
    if Blank(line) then None else Some(line)
  }

  method DispatchLines(before: seq<string>, lines: seq<string>, select: string -> Option<string>)
    returns (dispatched: seq<string>)
    ensures dispatched == before + Dispatch(lines, select)
  {
    dispatched := before;
    for k := 0 to |lines|
      invariant dispatched == before + Dispatch(lines[..k], select)
    {
      assert lines[..k + 1][..k] == lines[..k];
      var payload := select(lines[k]);
      if payload.None? { continue; }
      dispatched := dispatched + [payload.value];
    }
    assert lines[..|lines|] == lines;
  }

  // The read loop: append each chunk to the buffer, dispatch the complete pieces, keep the rest.
  // The result depends on the text only, not on where it was cut.
  method Feed(chunks: seq<string>, delimiter: string, select: string -> Option<string>)
    returns (dispatched: seq<string>, buffer: string)
    requires delimiter != ""
    ensures dispatched == Dispatch(Complete(Split(Concat(chunks), delimiter)), select)
    ensures buffer == Rest(Split(Concat(chunks), delimiter))
  {
    dispatched, buffer := [], "";
    ghost var pieces: seq<string> := [];
    for i := 0 to |chunks|
      invariant pieces + [buffer] == Split(Concat(chunks[..i]), delimiter)
      invariant dispatched == Dispatch(pieces, select)
    {
      assert chunks[..i + 1] == chunks[..i] + [chunks[i]];
      FeedStep(pieces, buffer, Concat(chunks[..i]), chunks[i], delimiter);
      ConcatSnoc(chunks[..i], chunks[i]);
      buffer := buffer + chunks[i];
      var lines := Split(buffer, delimiter);
      buffer := Rest(lines);
      dispatched := DispatchLines(dispatched, Complete(lines), select);
      DispatchAppend(pieces, Complete(lines), select);
      pieces := pieces + Complete(lines);
    }
    assert chunks[..|chunks|] == chunks;
    LastIsRest(pieces, buffer);
  }

  lemma LastIsRest(pieces: seq<string>, buffer: string)
    ensures Complete(pieces + [buffer]) == pieces && Rest(pieces + [buffer]) == buffer
  {
  }

  // ---- Frames of the prompt stream ----

  // What the server sends for a payload; an empty id is left out.
  datatype Frame = Frame(id: string, payload: string)

  function Lines(f: Frame): string {
    (if f.id == "" then "" else "id: " + f.id + "\n") + ("data: " + f.payload)
  }

  function Encode(frames: seq<Frame>): string {
    if frames == [] then "" else Lines(frames[0]) + "\n\n" + Encode(frames[1..])
  }

  // Newlines are single and do not come last.
  predicate Clean(s: string) {
    forall k {:trigger s[k]} :: 0 <= k < |s| && s[k] == '\n' ==> k + 1 < |s| && s[k + 1] != '\n'
  }

  function Payloads(frames: seq<Frame>): seq<string> {
    seq(|frames|, i requires 0 <= i < |frames| => frames[i].payload)
  }

  // The payloads of the frames without an id.
  function Unnumbered(frames: seq<Frame>): seq<string> {
    if frames == [] then []
    else (if frames[0].id == "" then [frames[0].payload] else []) + Unnumbered(frames[1..])
  }

  // What the client hands on of a whole stream.
  function EventsOf(text: string): seq<string> {
    Dispatch(Complete(Split(text, "\n\n")), EventPayload)
  }

  lemma CleanJoin(a: string, b: string)
    requires Clean(a) && Clean(b)
    ensures Clean(a + b)
  {
    forall k | 0 <= k < |a + b| && (a + b)[k] == '\n' ensures k + 1 < |a + b| && (a + b)[k + 1] != '\n' {
      if k < |a| {
        assert a[k] == '\n';
      } else {
        assert b[k - |a|] == '\n';
      }
    }
  }

  lemma CleanLines(f: Frame)
    requires Clean(f.id) && Clean(f.payload)
    ensures Clean(Lines(f))
  {
    var data := "data: " + f.payload;
    CleanJoin("data: ", f.payload);
    if f.id != "" {
      CleanJoin("id: ", f.id);
      assert Clean("\n" + data);
      CleanJoin("id: " + f.id, "\n" + data);
      assert Lines(f) == ("id: " + f.id) + ("\n" + data);
    }
  }

  lemma AtTwice(text: string, k: nat)
    requires k + 2 <= |text|
    ensures At(text, "\n\n", k) <==> text[k] == '\n' && text[k + 1] == '\n'
  {
    var pair := text[k..k + 2];
    assert pair[0] == text[k] && pair[1] == text[k + 1];
  }

  lemma CleanIsFirst(s: string, rest: string)
    requires Clean(s)
    ensures SplitsInto(s + "\n\n" + rest, "\n\n", s, rest)
  {
    var text := s + "\n\n" + rest;
    assert At(text, "\n\n", |s|);
    forall k: nat | k < |s| ensures !At(text, "\n\n", k) {
      AtTwice(text, k);
      assert text[k] == s[k];
    }
    IndexUnique(text, "\n\n", |s|);
    SplitFirst(text, "\n\n", s, rest);
  }

  lemma EventsAfter(text: string, head: string, tail: string)
    requires SplitsInto(text, "\n\n", head, tail)
    ensures EventsOf(text) == Dispatch([head], EventPayload) + EventsOf(tail)
  {
    var parts := Split(tail, "\n\n");
    assert Complete([head] + parts) == [head] + Complete(parts);
    DispatchAppend([head], Complete(parts), EventPayload);
  }

  lemma LinesPayload(f: Frame)
    ensures Dispatch([Lines(f)], EventPayload) == if f.id == "" then [f.payload] else []
  {
    var first := [Lines(f)];
    assert first[..0] == [];
    if f.id == "" {
      assert Lines(f) == "data: " + f.payload;
    } else {
      assert Lines(f)[0] == 'i' && "data: "[0] == 'd';
    }
  }

  // Of frames whose ids and payloads are clean the client hands on those without an id.
  lemma {:induction false} EventsAreUnnumbered(frames: seq<Frame>)
    requires forall f :: f in frames ==> Clean(f.id) && Clean(f.payload)
    ensures EventsOf(Encode(frames)) == Unnumbered(frames)
    decreases |frames|
  {
    if frames == [] {
      assert Split("", "\n\n") == [""];
    } else {
      CleanLines(frames[0]);
      CleanIsFirst(Lines(frames[0]), Encode(frames[1..]));
      EventsAfter(Encode(frames), Lines(frames[0]), Encode(frames[1..]));
      LinesPayload(frames[0]);
      EventsAreUnnumbered(frames[1..]);
    }
  }

  lemma {:induction false} EventsAreClean(text: string)
    ensures forall e :: e in EventsOf(text) ==> Clean(e)
    decreases |text|
  {
    var i := IndexOf(text, "\n\n");
    if i < |text| {
      var head, tail := text[..i], text[i + 2..];
      SplitFirst(text, "\n\n", head, tail);
      EventsAfter(text, head, tail);
      EventsAreClean(tail);
      FirstIsClean(text);
      var first := [head];
      assert first[..0] == [];
      assert EventPayload(head).Some? ==> Clean(head[6..]);
    } else {
      assert |Complete([text])| == 0;
    }
  }

  lemma FirstIsClean(text: string)
    requires IndexOf(text, "\n\n") < |text|
    ensures Clean(text[..IndexOf(text, "\n\n")])
  {
    var i := IndexOf(text, "\n\n");
    assert text[i..i + 2] == "\n\n" && text[i] == text[i..i + 2][0];
    forall k | 0 <= k < i && text[k] == '\n' ensures k + 1 < i && text[k + 1] != '\n' {
      AtTwice(text, k);
      assert !At(text, "\n\n", k);
    }
  }

  lemma {:induction false} UnnumberedSize(frames: seq<Frame>)
    ensures |Unnumbered(frames)| <= |frames|
    ensures |Unnumbered(frames)| == |frames| <==> forall f :: f in frames ==> f.id == ""
    ensures |Unnumbered(frames)| == |frames| ==> Unnumbered(frames) == Payloads(frames)
    decreases |frames|
  {
    if frames != [] {
      UnnumberedSize(frames[1..]);
      assert frames == [frames[0]] + frames[1..];
    }
  }

  // The client hands on exactly the payloads that were sent if and only if no frame carries an id and
  // every payload is clean, wherever the stream was cut.
  lemma PayloadsArriveIff(frames: seq<Frame>)
    requires forall f :: f in frames ==> Clean(f.id)
    ensures EventsOf(Encode(frames)) == Payloads(frames)
       <==> forall f :: f in frames ==> f.id == "" && Clean(f.payload)
  {
    UnnumberedSize(frames);
    if EventsOf(Encode(frames)) == Payloads(frames) {
      EventsAreClean(Encode(frames));
      forall f | f in frames ensures Clean(f.payload) {
        var i :| 0 <= i < |frames| && frames[i] == f;
        assert Payloads(frames)[i] in EventsOf(Encode(frames));
      }
      EventsAreUnnumbered(frames);
    } else if forall f :: f in frames ==> f.id == "" && Clean(f.payload) {
      EventsAreUnnumbered(frames);
    }
  }

  // The events of a prompt response, whatever pieces its body arrives in.
  method PromptEvents(chunks: seq<string>) returns (events: seq<string>)
    ensures events == EventsOf(Concat(chunks))
  {
    var rest;
    events, rest := Feed(chunks, "\n\n", EventPayload);
  }

  // What has been passed on and what is left over after `received`.
  ghost predicate Drained(received: string, handled: seq<string>, buffer: string) {
    && handled == Dispatch(Complete(Split(received, "\n")), LinePayload)
    && buffer == Rest(Split(received, "\n"))
  }

  lemma DrainStep(received: string, handled: seq<string>, buffer: string, chunk: string)
    requires Drained(received, handled, buffer)
    ensures var parts := Split(buffer + chunk, "\n");
            Drained(received + chunk, handled + Dispatch(Complete(parts), LinePayload), Rest(parts))
  {
    var parts := Split(buffer + chunk, "\n");
    SplitLater(received, chunk, "\n");
    var pieces := Complete(Split(received, "\n"));
    PrependAll(pieces, parts);
    DispatchAppend(pieces, Complete(parts), LinePayload);
  }

  lemma PrependAll(pieces: seq<string>, parts: seq<string>)
    requires parts != []
    ensures Complete(pieces + parts) == pieces + Complete(parts) && Rest(pieces + parts) == Rest(parts)
  {
  }

  // ---- What arrives of the agent's output ----

  // Each line with the newline that ends it.
  function Ended(lines: seq<string>): string {
    if lines == [] then "" else lines[0] + "\n" + Ended(lines[1..])
  }

  // The lines that hold more than white space, unchanged.
  ghost function NotBlank(lines: seq<string>): seq<string> {
    if lines == [] then []
    else (if exists c :: c in lines[0] && !IsSpace(c) then [lines[0]] else []) + NotBlank(lines[1..])
  }

  predicate OneLine(s: string) {
    '\n' !in s
  }

  // The output so far is its lines and the text in the buffer, and the lines that are not blank were passed on.
  ghost predicate Arrived(received: string, handled: seq<string>, buffer: string) {
    OneLine(buffer) && exists lines :: LinesOf(received, lines, buffer) && handled == NotBlank(lines)
  }

  ghost predicate LinesOf(received: string, lines: seq<string>, buffer: string) {
    (forall i :: 0 <= i < |lines| ==> OneLine(lines[i])) && received == Ended(lines) + buffer
  }

  lemma {:induction false} EndedJoins(lines: seq<string>, last: string)
    ensures Join(lines + [last], "\n") == Ended(lines) + last
  {
    if lines == [] {
      assert lines + [last] == [last] && "" + last == last;
    } else {
      assert (lines + [last])[1..] == lines[1..] + [last];
      EndedJoins(lines[1..], last);
      Associative(lines[0] + "\n", Ended(lines[1..]), last);
    }
  }

  lemma PieceIsOneLine(p: string)
    requires IndexOf(p, "\n") == |p|
    ensures OneLine(p)
  {
    forall k: nat | k < |p| ensures p[k] != '\n' {
      assert !At(p, "\n", k);
      assert p[k..k + 1] == [p[k]];
    }
  }

  lemma {:induction false} NotBlankDispatched(lines: seq<string>)
    ensures Dispatch(lines, LinePayload) == NotBlank(lines)
    decreases |lines|
  {
    if lines != [] {
      assert [lines[0]] + lines[1..] == lines;
      DispatchAppend([lines[0]], lines[1..], LinePayload);
      NotBlankDispatched(lines[1..]);
      assert [lines[0]][..0] == [];
      OneDispatched(lines[0]);
    }
  }

  lemma OneDispatched(line: string)
    ensures Dispatch([line], LinePayload) == if exists c :: c in line && !IsSpace(c) then [line] else []
  {
    hide IsSpace;
    var none: seq<string> := [];
    assert [line][..0] == none && Dispatch(none, LinePayload) == none;
    assert none + [line] == [line];
  }

  // Of every output, the lines that are not blank arrive unchanged and in order.
  lemma DrainedArrives(received: string, handled: seq<string>, buffer: string)
    requires Drained(received, handled, buffer)
    ensures Arrived(received, handled, buffer)
  {
    hide Split, IndexOf, Join, OneLine, Dispatch;
    var parts := Split(received, "\n");
    var lines := Complete(parts);
    SplitJoins(received, "\n");
    forall i | 0 <= i < |parts| ensures OneLine(parts[i]) {
      assert parts[i] in parts;
      PieceIsOneLine(parts[i]);
    }
    assert parts == lines + [buffer];
    EndedJoins(lines, buffer);
    NotBlankDispatched(lines);
    assert LinesOf(received, lines, buffer);
  }

  lemma FirstLine(text: string, line: string, rest: string)
    requires OneLine(line) && text == line + "\n" + rest
    ensures |line| < |text| && text[|line|] == '\n' && text[..|line|] == line && text[|line| + 1..] == rest
    ensures forall k :: 0 <= k < |line| ==> text[k] != '\n'
  {
    forall k | 0 <= k < |line| ensures text[k] != '\n' {
      assert text[k] == line[k];
    }
  }

  lemma FirstOf(text: string, lines: seq<string>, buffer: string)
    requires LinesOf(text, lines, buffer) && OneLine(buffer)
    ensures lines == [] ==> OneLine(text) && buffer == text
    ensures lines != [] ==> var i := |lines[0]|;
      && i < |text| && text[i] == '\n' && text[..i] == lines[0] && LinesOf(text[i + 1..], lines[1..], buffer)
      && forall k :: 0 <= k < i ==> text[k] != '\n'
  {
    if lines == [] {
      assert "" + buffer == buffer;
    } else {
      assert text == lines[0] + "\n" + (Ended(lines[1..]) + buffer);
      FirstLine(text, lines[0], Ended(lines[1..]) + buffer);
    }
  }

  // The output so far has one such reading.
  lemma {:induction false} LinesUnique(text: string, a: seq<string>, s: string, b: seq<string>, t: string)
    requires LinesOf(text, a, s) && LinesOf(text, b, t) && OneLine(s) && OneLine(t)
    ensures a == b && s == t
    decreases |a|
  {
    hide LinesOf;
    FirstOf(text, a, s);
    FirstOf(text, b, t);
    if a != [] && b != [] {
      LinesUnique(text[|a[0]| + 1..], a[1..], s, b[1..], t);
      assert a == [a[0]] + a[1..] && b == [b[0]] + b[1..];
    }
  }

  // The output buffer of a bridge session; `received` is all the output so far, `handled` the
  // lines passed on.
  class LineBuffer {
    var buffer: string
    ghost var received: string
    ghost var handled: seq<string>

    ghost predicate Valid()
      reads this
    {
      Drained(received, handled, buffer)
    }

    constructor ()
      ensures Valid() && received == "" && handled == []
    {
      buffer, received, handled := "", "", [];
    }

    // One chunk of output: append it, pass on the lines that are now complete.
    method DrainBuffer(chunk: string) returns (lines: seq<string>)
      requires Valid()
      modifies this
      ensures Valid() && received == old(received) + chunk && handled == old(handled) + lines
      ensures Arrived(received, handled, buffer)
    {
      hide Drained, Arrived;
      DrainStep(received, handled, buffer, chunk);
      buffer := buffer + chunk;
      var parts := Split(buffer, "\n");
      buffer := Rest(parts);
      lines := DispatchLines([], Complete(parts), LinePayload);
      assert lines == Dispatch(Complete(parts), LinePayload);
      received := received + chunk;
      handled := handled + lines;
      DrainedArrives(received, handled, buffer);
    }
  }
}
