/**
 * The Mito AI inline completer: the text cleaner applied to every
 * suggestion, and the completer object that keeps one live completion
 * stream per request, modelled as a sequence of discrete events
 * (fetch, chunk arrival, reset, dispose, stream consumption).
 */
module InlineCompleter {
  import opened Wrappers
  import opened Text

  // ---------------------------------------------------------------------
  // Settings
  // ---------------------------------------------------------------------

  /** The `triggerKind` setting: complete automatically or only on demand. */
  datatype TriggerKind = Any | Manual

  /** Why the editor asked for a completion. */
  datatype InvocationKind = Invoke | Automatic

  datatype Settings = Settings(triggerKind: TriggerKind, debouncerDelay: int, enabled: bool)

  const DefaultSettings: Settings := Settings(Any, 250, false)

  // ---------------------------------------------------------------------
  // The cleaner
  // ---------------------------------------------------------------------

  const PythonFence := "```python"
  const Fence := "```"

  /** `r` is `raw` with at most `lead` characters removed in front and at most `trail` behind. */
  predicate TrimmedFrom(r: string, raw: string, lead: nat, trail: nat) {
    exists i, j :: 0 <= i <= lead && i <= j <= |raw| && |raw| - j <= trail && r == raw[i..j]
  }

  /** How much of the front the opening-fence replacement removes. */
  function OpeningLength(raw: string): (k: nat)
    ensures k <= |raw| && k <= 10
    ensures k > 0 <==> StartsWith(raw, PythonFence)
  {
    if StartsWith(raw, PythonFence + "\n") then 10 else if StartsWith(raw, PythonFence) then 9 else 0
  }

  /** How much of the end a replacement anchored at the end removes. */
  function EndingLength(a: string, ending: string): (t: nat)
    ensures t <= |a|
    ensures t > 0 <==> ending != "" && EndsWith(a, ending)
  {
    if EndsWith(a, ending) then |ending| else 0
  }

  /**
   * The three anchored replacements: an opening "```python" with an optional
   * newline, then one closing "```", then one final newline.
   */
  function StripFences(raw: string): (r: string)
    ensures TrimmedFrom(r, raw, 10, 4)
    ensures !StartsWith(raw, PythonFence) ==> StartsWith(raw, r)
    ensures !EndsWith(raw, Fence) && !EndsWith(raw, "\n") ==> EndsWith(raw, r)
    ensures r == raw <==> !StartsWith(raw, PythonFence) && !EndsWith(raw, Fence) && !EndsWith(raw, "\n")
    ensures StrippedExactly(raw, r)
  {
    var k := OpeningLength(raw);
    var a := raw[k..];
    var t := EndingLength(a, Fence);
    var b := a[..|a| - t];
    var u := EndingLength(b, "\n");
    StripResult(raw, k, t, u, b[..|b| - u]);
    b[..|b| - u]
  }

  /**
   * Exactly what the three replacements remove: "```python\n" (or "```python"
   * when no newline follows it) from the front, then "```" from the end of
   * what is left, then one "\n" from the end of what is left after that.
   */
  predicate StrippedExactly(raw: string, r: string) {
    var k := if StartsWith(raw, PythonFence + "\n") then 10 else if StartsWith(raw, PythonFence) then 9 else 0;
    k <= |raw| &&
    var t := if EndsWith(raw[k..], Fence) then 3 else 0;
    k + t <= |raw| &&
    var u := if EndsWith(raw[k..|raw| - t], "\n") then 1 else 0;
    k + t + u <= |raw| && r == raw[k..|raw| - t - u]
  }

  /** The lengths `StripFences` computes are the ones `StrippedExactly` names. */
  lemma StripExact(raw: string, k: nat, t: nat, u: nat)
    requires k == OpeningLength(raw) && t == EndingLength(raw[k..], Fence)
    requires u == EndingLength(raw[k..][..|raw| - k - t], "\n")
    ensures StrippedExactly(raw, raw[k..][..|raw| - k - t][..|raw| - k - t - u])
  {
    assert k == if StartsWith(raw, PythonFence + "\n") then 10 else if StartsWith(raw, PythonFence) then 9 else 0;
    assert t == if EndsWith(raw[k..], Fence) then 3 else 0;
    assert raw[k..][..|raw| - k - t] == raw[k..|raw| - t];
    assert u == if EndsWith(raw[k..|raw| - t], "\n") then 1 else 0;
    StripLengths(raw, k, t, u);
  }

  /** The result of the three replacements, in terms of what each one removes. */
  lemma StripResult(raw: string, k: nat, t: nat, u: nat, r: string)
    requires k == OpeningLength(raw) && t == EndingLength(raw[k..], Fence)
    requires u == EndingLength(raw[k..][..|raw| - k - t], "\n")
    requires r == raw[k..][..|raw| - k - t][..|raw| - k - t - u]
    ensures TrimmedFrom(r, raw, 10, 4)
    ensures !StartsWith(raw, PythonFence) ==> StartsWith(raw, r)
    ensures !EndsWith(raw, Fence) && !EndsWith(raw, "\n") ==> EndsWith(raw, r)
    ensures r == raw <==> !StartsWith(raw, PythonFence) && !EndsWith(raw, Fence) && !EndsWith(raw, "\n")
    ensures StrippedExactly(raw, r)
  {
    StripExact(raw, k, t, u);
    StripLengths(raw, k, t, u);
    StripNothing(raw, k, t, u);
    StripSlice(raw, k, t, u);
  }

  /** What each replacement of `StripFences` removes, and the text the three leave. */
  lemma StripLengths(raw: string, k: nat, t: nat, u: nat)
    requires k == OpeningLength(raw) && t == EndingLength(raw[k..], Fence)
    requires u == EndingLength(raw[k..][..|raw| - k - t], "\n")
    ensures k <= 10 && t <= 3 && u <= 1 && k + t + u <= |raw|
    ensures raw[k..][..|raw| - k - t][..|raw| - k - t - u] == raw[k..|raw| - t - u]
  {
    var a := raw[k..];
    var b := a[..|a| - t];
    assert b == raw[k..|raw| - t] by {
      assert a == raw[k..|raw|];
      SliceOfSlice(raw, k, |raw|, 0, |a| - t);
    }
    assert b[..|b| - u] == raw[k..|raw| - t - u] by {
      SliceOfSlice(raw, k, |raw| - t, 0, |b| - u);
    }
  }

  /** When the three replacements of `StripFences` all remove nothing. */
  lemma StripNothing(raw: string, k: nat, t: nat, u: nat)
    requires k == OpeningLength(raw) && t == EndingLength(raw[k..], Fence)
    requires u == EndingLength(raw[k..][..|raw| - k - t], "\n")
    ensures !EndsWith(raw, Fence) && !EndsWith(raw, "\n") ==> t == 0 && u == 0
    ensures k == 0 && t == 0 && u == 0 <==>
      !StartsWith(raw, PythonFence) && !EndsWith(raw, Fence) && !EndsWith(raw, "\n")
  {
    EndingOfSuffix(raw, k, Fence);
    if t == 0 {
      assert raw[k..][..|raw| - k - t] == raw[k..];
      EndingOfSuffix(raw, k, "\n");
    }
    if k == 0 {
      assert raw[k..] == raw;
    }
  }

  /** The text left between the removed front and the removed end. */
  lemma StripSlice(raw: string, k: nat, t: nat, u: nat)
    requires k <= 10 && t <= 3 && u <= 1 && k + t + u <= |raw|
    ensures TrimmedFrom(raw[k..|raw| - t - u], raw, 10, 4)
    ensures k == 0 ==> StartsWith(raw, raw[k..|raw| - t - u])
    ensures t == 0 && u == 0 ==> EndsWith(raw, raw[k..|raw| - t - u])
    ensures raw[k..|raw| - t - u] == raw <==> k == 0 && t == 0 && u == 0
  {
    var c := raw[k..|raw| - t - u];
    if k == 0 {
      assert c == raw[..|c|];
    }
    if t == 0 && u == 0 {
      assert c == raw[|raw| - |c|..];
    }
    if c == raw {
      assert |c| == |raw|;
    }
  }

  /** A suffix of `raw` ends with `ending` only if `raw` does. */
  lemma EndingOfSuffix(raw: string, k: nat, ending: string)
    requires k <= |raw|
    ensures EndsWith(raw[k..], ending) ==> EndsWith(raw, ending)
  {
    var a := raw[k..];
    if EndsWith(a, ending) {
      assert a[|a| - |ending|..] == raw[|raw| - |ending|..];
    }
  }

  /** `prefix.split('\n').slice(-1)[0]`: the text after the last newline. */
  function LastLine(text: string): (l: string)
    ensures EndsWith(text, l)
    ensures '\n' !in l
    ensures |l| < |text| ==> text[|text| - |l| - 1] == '\n'
  {
    SplitLast(text, "\n");
    ContainsChar(Last(Split(text, "\n")), '\n');
    NewlineBefore(text, |text| - |Last(Split(text, "\n"))|);
    Last(Split(text, "\n"))
  }

  /** A prefix of `text` that ends with a newline has the newline as its last character. */
  lemma NewlineBefore(text: string, n: int)
    requires 0 <= n <= |text|
    ensures 0 < n && EndsWith(text[..n], "\n") ==> text[n - 1] == '\n'
  {
    if 0 < n && EndsWith(text[..n], "\n") {
      assert text[..n][n - 1..] == "\n";
      assert text[..n][n - 1] == text[n - 1];
    }
  }

  /** `suffix.split('\n')[0]`: the text before the first newline. */
  function FirstLine(text: string): (l: string)
    ensures StartsWith(text, l)
    ensures '\n' !in l
    ensures |l| < |text| ==> text[|l|] == '\n'
  {
    SplitFirst(text, "\n");
    ContainsChar(Split(text, "\n")[0], '\n');
    Split(text, "\n")[0]
  }

  /** Drops the last line of a given (non-empty) prefix when the completion repeats it. */
  function DropDuplicatePrefix(completion: string, prefix: string): (r: string)
    ensures r == completion || (prefix != "" && completion == LastLine(prefix) + r)
    ensures r != completion <==> prefix != "" && LastLine(prefix) != "" && StartsWith(completion, LastLine(prefix))
  {
    if prefix != "" then
      var lastPrefixLine := LastLine(prefix);
      if StartsWith(completion, lastPrefixLine) && lastPrefixLine != "" then
        assert completion == lastPrefixLine + completion[|lastPrefixLine|..];
        completion[|lastPrefixLine|..]
      else completion
    else completion
  }

  /** Drops the first line of a given (non-empty) suffix when the completion repeats it. */
  function DropDuplicateSuffix(completion: string, suffix: string): (r: string)
    ensures r == completion || (suffix != "" && completion == r + FirstLine(suffix))
    ensures r != completion <==> suffix != "" && FirstLine(suffix) != "" && EndsWith(completion, FirstLine(suffix))
  {
    if suffix != "" then
      var firstSuffixLine := FirstLine(suffix);
      if EndsWith(completion, firstSuffixLine) && firstSuffixLine != "" then
        var r := Slice(completion, 0, -|firstSuffixLine|);
        assert r == completion[..|completion| - |firstSuffixLine|];
        assert completion == r + firstSuffixLine;
        r
      else completion
    else completion
  }

  /**
   * What the two de-duplication steps do to the fence-stripped text `s`:
   * the prefix's last line is cut from the front when `s` starts with it,
   * then the suffix's first line is cut from the end of what is left when
   * that ends with it; empty lines and empty prefixes or suffixes cut nothing.
   */
  predicate EchoesRemoved(s: string, prefix: string, suffix: string, r: string) {
    var p := LastLine(prefix);
    var mid := if prefix != "" && p != "" && StartsWith(s, p) then s[|p|..] else s;
    var q := FirstLine(suffix);
    r == if suffix != "" && q != "" && EndsWith(mid, q) then mid[..|mid| - |q|] else mid
  }

  lemma DedupSteps(s: string, prefix: string, suffix: string, mid: string, r: string)
    requires mid == DropDuplicatePrefix(s, prefix) && r == DropDuplicateSuffix(mid, suffix)
    ensures EchoesRemoved(s, prefix, suffix, r)
  {
    var p := LastLine(prefix);
    if prefix != "" && p != "" && StartsWith(s, p) {
      assert s == p + mid;
      assert mid == s[|p|..];
    }
    var q := FirstLine(suffix);
    if suffix != "" && q != "" && EndsWith(mid, q) {
      assert mid == r + q;
      assert r == mid[..|mid| - |q|];
    }
  }

  /**
   * `_cleanCompletion(raw, prefix, suffix)`; an absent prefix or suffix is
   * the empty string, which the source treats the same way.
   */
  function CleanCompletion(raw: string, prefix: string, suffix: string): (r: string)
    ensures IsSliceOf(r, raw) && |r| <= |raw|
    ensures |r| <= |StripFences(raw)|
    ensures prefix == "" && suffix == "" ==> r == StripFences(raw)
    ensures EchoesRemoved(StripFences(raw), prefix, suffix, r)
  {
    var stripped := StripFences(raw);
    var deduped := DropDuplicatePrefix(stripped, prefix);
    var r := DropDuplicateSuffix(deduped, suffix);
    DedupSteps(stripped, prefix, suffix, deduped, r);
    assert IsSliceOf(stripped, raw) by {
      var i, j :| 0 <= i <= 10 && i <= j <= |raw| && |raw| - j <= 4 && stripped == raw[i..j];
    }
    assert IsSliceOf(deduped, stripped) by {
      if deduped != stripped {
        assert EndsWith(stripped, deduped);
        SuffixIsSlice(stripped, deduped);
      } else {
        assert deduped == stripped[0..|stripped|];
      }
    }
    assert IsSliceOf(r, deduped) by {
      if r != deduped {
        assert StartsWith(deduped, r);
        PrefixIsSlice(deduped, r);
      } else {
        assert r == deduped[0..|deduped|];
      }
    }
    SliceTransitive(deduped, stripped, raw);
    SliceTransitive(r, deduped, raw);
    r
  }

  /** The cleaner is not idempotent: a second pass removes a second trailing newline. */
  lemma CleanCompletionNotIdempotent()
    ensures CleanCompletion("x\n\n", "", "") == "x\n"
    ensures CleanCompletion(CleanCompletion("x\n\n", "", ""), "", "") == "x"
  {
    StripTwoNewlines();
    StripOneNewline();
  }

  lemma StripTwoNewlines()
    ensures StripFences("x\n\n") == "x\n"
  {
    var once := "x\n\n";
    assert OpeningLength(once) == 0;
    assert EndingLength(once, Fence) == 0 by { assert once[0] != Fence[0]; }
    assert EndingLength(once, "\n") == 1 by { assert once[2..] == "\n"; }
    assert once[..2] == "x\n";
  }

  lemma StripOneNewline()
    ensures StripFences("x\n") == "x"
  {
    var twice := "x\n";
    assert OpeningLength(twice) == 0;
    assert EndingLength(twice, Fence) == 0;
    assert EndingLength(twice, "\n") == 1 by { assert twice[1..] == "\n"; }
    assert twice[..1] == "x";
  }

  /** The last line of `front + "\n" + line` is `line` when `line` holds no newline. */
  lemma LastLineAfterNewline(front: string, line: string)
    requires '\n' !in line
    ensures LastLine(front + "\n" + line) == line
  {
    var text := front + "\n" + line;
    var l := LastLine(text);
    assert text[|text| - |line|..] == line;
    assert text[|text| - |line| - 1] == '\n';
    assert forall k :: |text| - |line| <= k < |text| ==> text[k] == line[k - (|text| - |line|)];
    assert forall k :: |text| - |l| <= k < |text| ==> text[k] == l[k - (|text| - |l|)];
    assert |l| == |line|;
  }

  /**
   * A fenced completion that opens by repeating the line the cursor is on:
   * the fences go and so does the repeated line, leaving what follows it.
   */
  lemma {:induction false} CleanDropsEchoedLine(front: string, line: string, body: string)
    requires line != "" && '\n' !in line
    ensures CleanCompletion(PythonFence + "\n" + line + body + "\n" + Fence, front + "\n" + line, "") == body
  {
    var raw := PythonFence + "\n" + line + body + "\n" + Fence;
    var a := line + body + "\n" + Fence;
    var b := line + body + "\n";
    var c := line + body;
    assert OpeningLength(raw) == 10 by {
      assert raw[..10] == PythonFence + "\n";
    }
    assert raw[10..] == a;
    assert EndingLength(a, Fence) == 3 by {
      assert a[|a| - 3..] == Fence;
    }
    assert a[..|a| - 3] == b;
    assert EndingLength(b, "\n") == 1 by {
      assert b[|b| - 1..] == "\n";
    }
    assert b[..|b| - 1] == c;
    assert StripFences(raw) == c;
    LastLineAfterNewline(front, line);
    assert c[..|line|] == line;
    assert c[|line|..] == body;
  }

  /** Slicing the request at its offset: the prefix and suffix put back together are the whole text. */
  datatype Request = Request(text: string, offset: int)

  function GetPrefix(request: Request): (p: string)
    ensures StartsWith(request.text, p)
    ensures 0 <= request.offset <= |request.text| ==> |p| == request.offset
  {
    Slice(request.text, 0, request.offset)
  }

  function GetSuffix(request: Request): (s: string)
    ensures GetPrefix(request) + s == request.text
  {
    var p := GetPrefix(request);
    var s := Slice(request.text, request.offset, |request.text|);
    assert s == request.text[|p|..];
    s
  }

  // ---------------------------------------------------------------------
  // Messages exchanged with the server
  // ---------------------------------------------------------------------

  datatype CompletionError = CompletionError(errorType: string, traceback: string)

  /** One item of the server's acknowledgement of a completion request. */
  datatype ResponseItem = ResponseItem(content: string, token: string, isIncomplete: bool)

  /** The acknowledgement `sendMessage` resolves to. */
  datatype SendResult = SendResult(items: seq<ResponseItem>, error: Option<CompletionError>)

  /** The request the completer sends: its message id and the text around the cursor. */
  datatype InlineRequest = InlineRequest(messageId: nat, prefix: string, suffix: string)

  /** An item handed back to the editor: the server's item plus the cleaned `insertText`. */
  datatype CompletionItem = CompletionItem(content: string, token: string, isIncomplete: bool, insertText: string)

  datatype Rejection = Disabled | Disposed

  datatype FetchOutcome =
    | Rejected(reason: Rejection)
    | Completions(items: seq<CompletionItem>)
    | Failed(error: CompletionError)

  /** A streamed chunk: the outer message and its inner `chunk` part. */
  datatype IncomingChunk = IncomingChunk(
    done: bool, error: Option<CompletionError>, parentId: string,
    token: string, content: string, itemError: Option<CompletionError>)

  /** What the completer emits into the stream for each accepted chunk. */
  datatype StreamReply = StreamReply(
    done: bool, error: Option<CompletionError>, parentId: string,
    insertText: string, isIncomplete: bool, itemError: Option<CompletionError>, token: string)

  datatype ReceiveOutcome = Emitted(reply: StreamReply) | StaleToken | MissingToken

  datatype StreamFailure = StreamDisabled | NoCurrentStream

  /** `{...item, insertText: _cleanCompletion(item.content, prefix, suffix)}` for each item. */
  function CleanItems(items: seq<ResponseItem>, prefix: string, suffix: string): (r: seq<CompletionItem>)
    ensures |r| == |items|
    ensures forall i :: 0 <= i < |items| ==>
      r[i] == CompletionItem(items[i].content, items[i].token, items[i].isIncomplete,
                             CleanCompletion(items[i].content, prefix, suffix))
  {
    seq(|items|, i requires 0 <= i < |items| =>
      CompletionItem(items[i].content, items[i].token, items[i].isIncomplete,
                     CleanCompletion(items[i].content, prefix, suffix)))
  }

  /** A reply after which the consumer stops reading. */
  predicate IsTerminal(r: StreamReply) {
    r.done || r.error.Some?
  }

  /** What a consumer reads from a stream log: everything up to and including the first terminal reply. */
  function UpToTerminal(log: seq<StreamReply>): (out: seq<StreamReply>)
    ensures out <= log
    ensures forall i :: 0 <= i < |out| - 1 ==> !IsTerminal(out[i])
    ensures |out| < |log| ==> |out| > 0 && IsTerminal(out[|out| - 1])
  {
    if log == [] then []
    else if IsTerminal(log[0]) then [log[0]]
    else [log[0]] + UpToTerminal(log[1..])
  }

  /** The first terminal reply at index `i` ends what a consumer reads. */
  lemma {:induction false} UpToTerminalAt(log: seq<StreamReply>, i: nat)
    requires i < |log| && IsTerminal(log[i])
    requires forall k :: 0 <= k < i ==> !IsTerminal(log[k])
    ensures UpToTerminal(log) == log[..i + 1]
  {
    if i > 0 {
      UpToTerminalAt(log[1..], i - 1);
      assert log[..i + 1] == [log[0]] + log[1..][..i];
    }
  }

  /** With no terminal reply the consumer reads the whole log. */
  lemma {:induction false} UpToTerminalNone(log: seq<StreamReply>)
    requires forall k :: 0 <= k < |log| ==> !IsTerminal(log[k])
    ensures UpToTerminal(log) == log
  {
    if log != [] {
      UpToTerminalNone(log[1..]);
      assert log == [log[0]] + log[1..];
    }
  }

  // ---------------------------------------------------------------------
  // The stream object
  // ---------------------------------------------------------------------

  /**
   * A signalling stream: `Emit` delivers a reply to its readers until `Stop`
   * is called; replies emitted afterwards are dropped.
   */
  class CompletionStream {
    var delivered: seq<StreamReply>
    var stopped: bool

    constructor ()
      ensures delivered == [] && !stopped
    {
      delivered := [];
      stopped := false;
    }

    method Emit(reply: StreamReply)
      modifies this
      ensures stopped == old(stopped)
      ensures delivered == if old(stopped) then old(delivered) else old(delivered) + [reply]
    {
      if !stopped {
        delivered := delivered + [reply];
      }
    }

    method Stop()
      modifies this
      ensures stopped && delivered == old(delivered)
    {
      stopped := true;
    }
  }

  // ---------------------------------------------------------------------
  // The completer
  // ---------------------------------------------------------------------

  class MitoAIInlineCompleter {
    var counter: nat
    var isDisposed: bool
    var settings: Settings
    var currentToken: string
    var currentStream: CompletionStream?
    /** The text accumulated so far, per stream. */
    var fullCompletionMap: map<CompletionStream, string>

    /**
     * A token is only ever current together with its stream, and the only
     * stream with an accumulator is the current one.
     */
    ghost predicate Valid()
      reads this
    {
      && (currentToken != "" ==> currentStream != null)
      && (forall s :: s in fullCompletionMap ==> s == currentStream)
    }

    /** `_fullCompletionMap.get(this._currentStream) ?? ''`. */
    function Accumulated(): (text: string)
      reads this
      ensures currentStream != null && currentStream in fullCompletionMap ==> text == fullCompletionMap[currentStream]
      ensures currentStream == null || currentStream !in fullCompletionMap ==> text == ""
    {
      if currentStream != null && currentStream in fullCompletionMap then fullCompletionMap[currentStream] else ""
    }

    /** `isEnabled()`. */
    function IsEnabled(): (enabled: bool)
      reads this
      ensures enabled <==> settings.enabled
    {
      settings.enabled
    }

    constructor ()
      ensures Valid()
      ensures counter == 0 && !isDisposed && settings == DefaultSettings
      ensures currentToken == "" && currentStream == null && fullCompletionMap == map[]
      ensures !IsEnabled()
    {
      counter := 0;
      isDisposed := false;
      settings := DefaultSettings;
      currentToken := "";
      currentStream := null;
      fullCompletionMap := map[];
    }

    /** `configure(settings)`: the new settings replace the old ones wholesale. */
    method Configure(s: Settings)
      modifies this`settings
      ensures settings == s
      ensures IsEnabled() == s.enabled
    {
      settings := s;
    }

    /** Forgets the token, stops the current stream and drops its accumulator. */
    method ResetCurrentStream()
      requires Valid()
      modifies this`currentToken, this`currentStream, this`fullCompletionMap, currentStream
      ensures Valid()
      ensures currentToken == "" && currentStream == null && fullCompletionMap == map[]
      ensures old(currentStream) != null ==>
        old(currentStream).stopped && old(currentStream).delivered == old(currentStream.delivered)
    {
      currentToken := "";
      if currentStream != null {
        currentStream.Stop();
        fullCompletionMap := fullCompletionMap - {currentStream};
        currentStream := null;
      } else {
        assert fullCompletionMap == map[] by {
          forall s | s in fullCompletionMap ensures false {
          }
        }
      }
    }

    /** `dispose()`: a second call changes nothing. */
    method Dispose()
      requires Valid()
      modifies this, currentStream
      ensures Valid() && isDisposed
      ensures counter == old(counter) && settings == old(settings)
      ensures old(isDisposed) ==>
        unchanged(this) && (old(currentStream) != null ==> unchanged(old(currentStream)))
      ensures !old(isDisposed) ==>
        && currentToken == "" && currentStream == null && fullCompletionMap == map[]
        && (old(currentStream) != null ==>
              old(currentStream).stopped && old(currentStream).delivered == old(currentStream.delivered))
    {
      if isDisposed {
        return;
      }
      isDisposed := true;
      ResetCurrentStream();
    }

    /**
     * `_receiveStreamChunk`: a chunk of the current completion is appended to
     * its accumulator and the cleaned accumulated text is emitted.
     */
    method ReceiveStreamChunk(chunk: IncomingChunk) returns (outcome: ReceiveOutcome)
      requires Valid()
      modifies this`fullCompletionMap, currentStream
      ensures Valid()
      ensures currentStream != null ==> currentStream.stopped == old(currentStream.stopped)
      ensures chunk.token == "" ==> outcome == MissingToken
      ensures chunk.token != "" && chunk.token != currentToken ==> outcome == StaleToken
      ensures !outcome.Emitted? ==>
        && fullCompletionMap == old(fullCompletionMap)
        && (currentStream != null ==> currentStream.delivered == old(currentStream.delivered))
      ensures chunk.token != "" && chunk.token == currentToken ==>
        && currentStream != null
        && Accumulated() == old(Accumulated()) + chunk.content
        && outcome == Emitted(StreamReply(chunk.done, chunk.error, chunk.parentId,
                                          CleanCompletion(Accumulated(), "", ""), !chunk.done,
                                          chunk.itemError, chunk.token))
        && currentStream.delivered ==
             if currentStream.stopped then old(currentStream.delivered)
             else old(currentStream.delivered) + [outcome.reply]
    {
      if chunk.token == "" {
        return MissingToken;
      }
      if currentToken != chunk.token {
        return StaleToken;
      }
      // The source throws when there is no stream for the current token,
      // which `Valid()` rules out.
      assert currentStream != null;
      var fullCompletion := Accumulated() + chunk.content;
      fullCompletionMap := fullCompletionMap[currentStream := fullCompletion];
      var cleaned := CleanCompletion(fullCompletion, "", "");
      var reply := StreamReply(chunk.done, chunk.error, chunk.parentId, cleaned, !chunk.done,
                               chunk.itemError, chunk.token);
      currentStream.Emit(reply);
      outcome := Emitted(reply);
    }

    /**
     * `fetch(request, context)`, with the server's acknowledgement `ack` as
     * an input. `sent` is the request put on the wire, if any.
     */
    method Fetch(request: Request, invocation: InvocationKind, ack: SendResult)
      returns (outcome: FetchOutcome, sent: Option<InlineRequest>)
      requires Valid()
      modifies this, currentStream
      ensures Valid()
      ensures settings == old(settings) && isDisposed == old(isDisposed)
      ensures !old(settings.enabled) ==> outcome == Rejected(Disabled)
      ensures old(settings.enabled) && old(isDisposed) ==> outcome == Rejected(Disposed)
      ensures outcome.Rejected? ==>
        && sent == None && unchanged(this)
        && (old(currentStream) != null ==> unchanged(old(currentStream)))
      ensures !old(settings.enabled) || old(isDisposed) ==> outcome.Rejected?
      ensures old(settings.enabled) && !old(isDisposed) ==>
        && fullCompletionMap == map[]
        && (old(currentStream) != null ==> old(currentStream).stopped)
        && (settings.triggerKind == Manual && invocation != Invoke ==>
              && outcome == Completions([]) && sent == None && counter == old(counter)
              && currentToken == "" && currentStream == null)
        && (settings.triggerKind == Any || invocation == Invoke ==>
              && counter == old(counter) + 1
              && sent == Some(InlineRequest(counter, GetPrefix(request), GetSuffix(request)))
              && (if |ack.items| > 0 && ack.items[0].token != "" then
                    && currentToken == ack.items[0].token && currentStream != null
                    && fresh(currentStream) && currentStream.delivered == [] && !currentStream.stopped
                  else currentToken == "" && currentStream == null)
              && outcome == if ack.error.Some? then Failed(ack.error.value)
                            else Completions(CleanItems(ack.items, GetPrefix(request), GetSuffix(request))))
    {
      sent := None;
      if !settings.enabled {
        return Rejected(Disabled), None;
      }
      if isDisposed {
        return Rejected(Disposed), None;
      }
      ResetCurrentStream();
      if settings.triggerKind == Manual && invocation != Invoke {
        return Completions([]), None;
      }
      counter := counter + 1;
      var messageId := counter;
      var prefix := GetPrefix(request);
      var suffix := GetSuffix(request);
      sent := Some(InlineRequest(messageId, prefix, suffix));
      if |ack.items| > 0 && ack.items[0].token != "" {
        currentToken := ack.items[0].token;
        currentStream := new CompletionStream();
      }
      if ack.error.Some? {
        return Failed(ack.error.value), sent;
      }
      outcome := Completions(CleanItems(ack.items, prefix, suffix));
    }

    /**
     * `stream(token)`: what a reader of the current stream receives. The
     * reader is attached when the stream is created and reads the replies
     * delivered so far, up to and including the first terminal one, after
     * which it stops the stream.
     */
    method Stream(token: string) returns (outcome: Result<seq<StreamReply>, StreamFailure>)
      requires Valid()
      modifies currentStream
      ensures !settings.enabled ==> outcome == Err(StreamDisabled)
      ensures settings.enabled && token != currentToken ==> outcome == Ok([])
      ensures settings.enabled && token == currentToken && currentStream == null ==> outcome == Err(NoCurrentStream)
      ensures currentStream != null ==> currentStream.delivered == old(currentStream.delivered)
      ensures currentStream != null && !(settings.enabled && token == currentToken) ==>
        currentStream.stopped == old(currentStream.stopped)
      ensures settings.enabled && token == currentToken && currentStream != null ==>
        && outcome == Ok(if old(currentStream.stopped) then [] else UpToTerminal(currentStream.delivered))
        && currentStream.stopped == (old(currentStream.stopped) || exists k :: 0 <= k < |currentStream.delivered| && IsTerminal(currentStream.delivered[k]))
    {
      if !settings.enabled {
        return Err(StreamDisabled);
      }
      if currentToken != token {
        return Ok([]);
      }
      if currentStream == null {
        // `this._currentStream!` on a null stream: only possible for the empty token.
        return Err(NoCurrentStream);
      }
      if currentStream.stopped {
        // A reader of a stopped stream ends at once.
        return Ok([]);
      }
      var log := currentStream.delivered;
      var yielded: seq<StreamReply> := [];
      var i := 0;
      var finished := false;
      while i < |log| && !finished
        invariant 0 <= i <= |log|
        invariant yielded == log[..i]
        invariant currentStream.delivered == log
        invariant !finished ==> forall k :: 0 <= k < i ==> !IsTerminal(log[k])
        invariant !finished ==> currentStream.stopped == old(currentStream.stopped)
        invariant finished ==> 0 < i && IsTerminal(log[i - 1]) && currentStream.stopped
        invariant finished ==> forall k :: 0 <= k < i - 1 ==> !IsTerminal(log[k])
        decreases |log| - i
      {
        var chunk := log[i];
        yielded := yielded + [chunk];
        i := i + 1;
        if IsTerminal(chunk) {
          currentStream.Stop();
          finished := true;
        }
      }
      if finished {
        UpToTerminalAt(log, i - 1);
      } else {
        UpToTerminalNone(log);
        assert yielded == log;
      }
      outcome := Ok(yielded);
    }
  }

  /** Cleaning a fenced streamed prefix: the opening fence goes, the code stays. */
  lemma {:induction false} CleanOpeningFence(code: string)
    requires code != "" && code[0] != '\n'
    requires !EndsWith(code, Fence) && !EndsWith(code, "\n")
    ensures CleanCompletion(PythonFence + "\n" + code, "", "") == code
  {
    var raw := PythonFence + "\n" + code;
    assert OpeningLength(raw) == 10 by {
      assert raw[..10] == PythonFence + "\n";
    }
    assert raw[10..] == code;
  }
}
