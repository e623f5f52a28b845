/**
 The connection state machine of the telnet/chat bridge (main.py:35-116).

 The bridge holds an optional telnet writer, an optional chat channel, a
 `connected` flag and the listener task. Whatever the network does is a
 parameter: `Login` says where (if anywhere) `connect` raised, `Teardown`
 where `disconnect` raised, an `Outcome` whether a `drain()` raised, and
 the listener is given the results of its successive `reader.read(1024)`
 calls. The writer is the log of the text written to it.
 */
module Bridge {
  import LineFilter

  datatype Option<T> = None | Some(value: T)

  /** Whether an awaited call returned or raised an exception with that text. */
  datatype Outcome = Ok | Raises(error: string)

  /** The course of `connect` once it is not already connected: the open
      raises, the drain after the user name or after the password raises,
      or the login runs to its end. */
  datatype Login =
    | OpenRaises(error: string)
    | UserDrainRaises(error: string)
    | PasswordDrainRaises(error: string)
    | LoggedIn

  /** The course of `disconnect` once it is connected: awaiting the
      cancelled listener re-raises an exception the listener ended with,
      `writer.close()` raises, or both steps return. */
  datatype Teardown =
    | ListenerRaises(error: string)
    | CloseRaises(error: string)
    | Clean

  /** A telnet writer: what was written to it, in order, and whether it was closed. */
  datatype TelnetWriter = TelnetWriter(written: seq<string>, closed: bool)

  /** The chat channel the listener posts to. */
  datatype Channel = Channel(id: nat)

  /** The listener task: never started, started, or cancelled by `disconnect`. */
  datatype ListenTask = NoTask | Running | Cancelled

  /** The result of one `reader.read(1024)` in the listener. */
  datatype Read = Chunk(data: string) | ReadRaises(error: string) | ReadCancelled

  /** What the bridge reads from the configuration. */
  datatype Config = Config(host: string, port: int, user: string, password: string,
                           ignored: seq<string>)

  /** `_send_line` terminates every line with CR LF (main.py:99). */
  function Line(s: string): string {
    s + "\r\n"
  }

  /** A text without a newline reaches the server as exactly one line,
      ended by CR LF. */
  lemma LineIsOneLine(s: string)
    requires '\n' !in s
    ensures LineFilter.Split(Line(s)) == [s + "\r", ""]
  {
    var body := s + "\r";
    assert '\n' !in body;
    assert Line(s) == body + "\n" + "";
    LineFilter.SplitAtNewline(body, "");
    LineFilter.SplitLine(body);
    LineFilter.SplitLine("");
  }

  /** The report of a listener failure (main.py:116). */
  function ListenerError(error: string): string {
    "Telnet listener error: " + error
  }

  /** The message the listener posts for a chunk (main.py:110-111). */
  function Forwarded(ignored: seq<string>, data: string): (m: string)
    ensures m == "```ansi\n" + LineFilter.Blanked(ignored, data) + "\n```"
  {
    LineFilter.FilterWrapped(ignored, data);
    LineFilter.RemoveIgnoredUserLines(ignored, LineFilter.Wrap(data))
  }

  /** The text the listener posts for a read result. */
  function Message(ignored: seq<string>, r: Read): (m: string)
    ensures m == [] <==> r.ReadCancelled?
  {
    match r
    case Chunk(data) => Forwarded(ignored, data)
    case ReadRaises(error) => ListenerError(error)
    case ReadCancelled => []
  }

  /** The read results the listener posts something for, in order, while
      connected: each non-empty chunk, and an error, which ends the loop;
      cancellation ends it silently. Without a channel nothing is posted. */
  function Posted(hasChannel: bool, results: seq<Read>): (posted: seq<Read>)
    ensures |posted| <= |results|
    ensures !hasChannel ==> posted == []
    ensures forall k :: 0 <= k < |posted| ==>
              posted[k] in results && ((posted[k].Chunk? && posted[k].data != []) || posted[k].ReadRaises?)
  {
    if results == [] then []
    else match results[0]
      case Chunk(data) =>
        (if data != [] && hasChannel then [results[0]] else []) + Posted(hasChannel, results[1..])
      case ReadRaises(error) => if hasChannel then [results[0]] else []
      case ReadCancelled => []
  }

  class TelnetDiscordBridge {
    const config: Config
    var connected: bool
    var writer: Option<TelnetWriter>
    var channel: Option<Channel>
    var listenTask: ListenTask
    /** How many listener tasks have been started. */
    ghost var listeners: nat

    /** The writer and the channel are set together; a connected bridge has
        an open writer and a listener; a running listener belongs to a
        connected bridge. */
    ghost predicate Valid()
      reads this
    {
      && (writer.Some? <==> channel.Some?)
      && (connected ==> writer.Some? && !writer.value.closed && listenTask != NoTask)
      && (listenTask == Running ==> connected)
      && (listenTask != NoTask ==> writer.Some? && listeners >= 1)
    }

    /** `__init__` (main.py:40-46). */
    constructor (config: Config)
      ensures Valid()
      ensures this.config == config
      ensures !connected && writer == None && channel == None && listenTask == NoTask
      ensures listeners == 0
    {
      this.config := config;
      connected := false;
      writer := None;
      channel := None;
      listenTask := NoTask;
      listeners := 0;
    }

    /** `_send_line` (main.py:98-100): the line and CR LF are written
        before the drain, so they stay written when the drain raises. */
    method SendLine(line: string, drain: Outcome) returns (r: Outcome)
      requires Valid() && writer.Some?
      modifies this`writer
      ensures Valid()
      ensures writer == Some(old(writer).value.(written := old(writer).value.written + [Line(line)]))
      ensures r == drain
    {
      writer := Some(writer.value.(written := writer.value.written + [Line(line)]));
      r := drain;
    }

    /** `connect` (main.py:48-69). */
    method Connect(ch: Channel, login: Login) returns (ok: bool, msg: string)
      requires Valid()
      modifies this
      ensures Valid()
      ensures ok <==> !old(connected) && login.LoggedIn?
      ensures old(connected) ==> msg == "Already connected." && unchanged(this)
      ensures !old(connected) && login.OpenRaises? ==>
                msg == "Failed to connect: " + login.error && unchanged(this)
      ensures !old(connected) && !login.OpenRaises? ==>
                && channel == Some(ch)
                && writer == Some(TelnetWriter(
                     if login.UserDrainRaises? then [Line(config.user)]
                     else [Line(config.user), Line(config.password)], false))
      ensures !old(connected) && (login.UserDrainRaises? || login.PasswordDrainRaises?) ==>
                && msg == "Failed to connect: " + login.error
                && !connected && listenTask == old(listenTask) && listeners == old(listeners)
      ensures !old(connected) && login.LoggedIn? ==>
                && msg == "Connected to telnet server."
                && connected && listenTask == Running && listeners == old(listeners) + 1
    {
      if connected {
        return false, "Already connected.";
      }
      if login.OpenRaises? {
        connected := false;
        return false, "Failed to connect: " + login.error;
      }
      writer := Some(TelnetWriter([], false));
      channel := Some(ch);
      var r := SendLine(config.user, if login.UserDrainRaises? then Raises(login.error) else Ok);
      assert writer.value.written == [Line(config.user)];
      if r.Raises? {
        connected := false;
        return false, "Failed to connect: " + r.error;
      }
      r := SendLine(config.password, if login.PasswordDrainRaises? then Raises(login.error) else Ok);
      assert writer.value.written == [Line(config.user), Line(config.password)];
      if r.Raises? {
        connected := false;
        return false, "Failed to connect: " + r.error;
      }
      connected := true;
      listenTask := Running;
      listeners := listeners + 1;
      return true, "Connected to telnet server.";
    }

    /** `disconnect` (main.py:71-89). The writer and the channel are kept;
        when a step raises, the bridge stays connected. */
    method Disconnect(teardown: Teardown) returns (ok: bool, msg: string)
      requires Valid()
      modifies this
      ensures Valid()
      ensures ok <==> old(connected) && teardown.Clean?
      ensures !old(connected) ==> msg == "Not connected." && unchanged(this)
      ensures old(connected) ==>
                && listenTask == Cancelled && channel == old(channel) && listeners == old(listeners)
      ensures old(connected) && teardown.Clean? ==>
                && msg == "Disconnected." && !connected
                && writer == Some(old(writer).value.(closed := true))
      ensures old(connected) && !teardown.Clean? ==>
                && msg == "Error disconnecting: " + teardown.error
                && connected && writer == old(writer)
    {
      if !connected {
        return false, "Not connected.";
      }
      if listenTask != NoTask {
        listenTask := Cancelled;
        if teardown.ListenerRaises? {
          return false, "Error disconnecting: " + teardown.error;
        }
      }
      if writer.Some? {
        if teardown.CloseRaises? {
          return false, "Error disconnecting: " + teardown.error;
        }
        writer := Some(writer.value.(closed := true));
      }
      connected := false;
      return true, "Disconnected.";
    }

    /** `send` (main.py:91-96): one line is written only while connected;
        otherwise nothing happens and nothing is raised. */
    method Send(message: string, drain: Outcome) returns (r: Outcome)
      requires Valid()
      modifies this`writer
      ensures Valid()
      ensures old(connected) ==>
                && writer == Some(old(writer).value.(written := old(writer).value.written + [Line(message)]))
                && r == drain
      ensures !old(connected) ==> writer == old(writer) && r == Ok
    {
      r := Ok;
      if connected && writer.Some? {
        r := SendLine(message, drain);
      }
    }

    /** The loop of `_listen_telnet` (main.py:102-116), run against the
        results of its reads: the messages it hands to the channel. Only a
        running listener task reads; a cancelled one posts nothing. */
    method Listen(results: seq<Read>) returns (sent: seq<string>)
      ensures Delivered(config.ignored,
                        if connected && listenTask == Running then Posted(channel.Some?, results) else [],
                        sent)
    {
      ghost var all := Posted(channel.Some?, results);
      ghost var posted: seq<Read> := [];
      sent := [];
      var i := 0;
      var live := connected && listenTask == Running;
      while live && i < |results|
        invariant 0 <= i <= |results|
        invariant live ==> all == posted + Posted(channel.Some?, results[i..])
        invariant Delivered(config.ignored, posted, sent)
        invariant !live ==> posted == []
      {
        PostedStep(channel.Some?, results, i);
        match results[i] {
          case Chunk(data) =>
            if data != [] && channel.Some? {
              AppendAssoc(posted, [results[i]], Posted(channel.Some?, results[i + 1..]));
              DeliveredSnoc(config.ignored, posted, sent, results[i]);
              sent := sent + [Message(config.ignored, results[i])];
              posted := posted + [results[i]];
            } else {
              EmptyAppend(Posted(channel.Some?, results[i + 1..]));
            }
          case ReadRaises(error) =>
            if channel.Some? {
              DeliveredSnoc(config.ignored, posted, sent, results[i]);
              sent := sent + [Message(config.ignored, results[i])];
              posted := posted + [results[i]];
            }
            return;
          case ReadCancelled =>
            return;
        }
        i := i + 1;
      }
    }
  }

  /** `sent` holds, in order, the message for each posted read result. */
  predicate Delivered(ignored: seq<string>, posted: seq<Read>, sent: seq<string>) {
    |sent| == |posted| && forall k :: 0 <= k < |sent| ==> sent[k] == Message(ignored, posted[k])
  }

  lemma DeliveredSnoc(ignored: seq<string>, posted: seq<Read>, sent: seq<string>, r: Read)
    requires Delivered(ignored, posted, sent)
    ensures Delivered(ignored, posted + [r], sent + [Message(ignored, r)])
  {
  }

  // ---------------------------------------------------------------------
  // What the listener posts

  lemma AppendAssoc<T>(a: seq<T>, b: seq<T>, c: seq<T>)
    ensures a + b + c == a + (b + c)
  {
  }

  lemma ConsSplit<T>(a: seq<T>)
    requires a != []
    ensures a == [a[0]] + a[1..]
  {
  }

  lemma EmptyAppend<T>(a: seq<T>)
    ensures [] + a == a
  {
  }

  /** One read of the listener, as `Posted` sees it. */
  lemma PostedStep(hasChannel: bool, results: seq<Read>, i: nat)
    requires i < |results|
    ensures Posted(hasChannel, results[i..]) ==
            (if hasChannel && ((results[i].Chunk? && results[i].data != []) || results[i].ReadRaises?)
             then [results[i]] else [])
            + (if results[i].Chunk? then Posted(hasChannel, results[i + 1..]) else [])
  {
    assert results[i..][0] == results[i] && results[i..][1..] == results[i + 1..];
  }

  /** Message `m` is what the listener posts for read result `r`, written
      out in closed form: the shape `PostedMessages` proves for each posted
      result, from `Forwarded`'s contract and `ListenerError`. */
  predicate RelayOf(ignored: seq<string>, r: Read, m: string) {
    || (r.Chunk? && r.data != [] && m == "```ansi\n" + LineFilter.Blanked(ignored, r.data) + "\n```")
    || (r.ReadRaises? && m == ListenerError(r.error))
  }

  /** Every posted message is the envelope around a non-empty chunk with
      its ignored lines blanked, or the report of a read error, and it
      belongs to one of the read results. */
  lemma PostedMessages(ignored: seq<string>, hasChannel: bool, results: seq<Read>)
    ensures forall k :: 0 <= k < |Posted(hasChannel, results)| ==>
              && Posted(hasChannel, results)[k] in results
              && RelayOf(ignored, Posted(hasChannel, results)[k], Message(ignored, Posted(hasChannel, results)[k]))
  {
    var posted := Posted(hasChannel, results);
    forall k | 0 <= k < |posted|
      ensures RelayOf(ignored, posted[k], Message(ignored, posted[k]))
    {
      if posted[k].Chunk? {
        LineFilter.FilterWrapped(ignored, posted[k].data);
      }
    }
  }

  /** No posted chunk contains a line of an ignored user. */
  lemma ForwardedHasNoIgnoredLine(ignored: seq<string>, data: string)
    ensures forall k :: 0 <= k < |LineFilter.Split(Forwarded(ignored, data))| ==>
              !LineFilter.Matches(ignored, LineFilter.Split(Forwarded(ignored, data))[k])
  {
    var b := LineFilter.Blanked(ignored, data);
    var head, tail := "```ansi", "```";
    LineFilter.FilterWrapped(ignored, data);
    LineFilter.EnvelopeText(b);
    assert ' ' !in head && ' ' !in tail && '\n' !in head && '\n' !in tail;
    LineFilter.EnclosedHasNoIgnoredLine(ignored, head, data, tail);
  }

  /** While every read yields a non-empty chunk and there is a channel,
      every chunk is posted, in order, and none is dropped. */
  lemma {:induction false} PostedEveryChunk(results: seq<Read>)
    requires forall k :: 0 <= k < |results| ==> results[k].Chunk? && results[k].data != []
    ensures Posted(true, results) == results
  {
    if results != [] {
      assert forall k :: 0 <= k < |results[1..]| ==> results[1..][k] == results[k + 1];
      PostedEveryChunk(results[1..]);
      assert Posted(true, results) == [results[0]] + Posted(true, results[1..]);
      ConsSplit(results);
    }
  }

  /** Reads after a prefix of chunks are posted as if the prefix were not there. */
  lemma {:induction false} PostedAppend(hasChannel: bool, pre: seq<Read>, rest: seq<Read>)
    requires forall k :: 0 <= k < |pre| ==> pre[k].Chunk?
    ensures Posted(hasChannel, pre + rest) == Posted(hasChannel, pre) + Posted(hasChannel, rest)
  {
    if pre != [] {
      assert (pre + rest)[0] == pre[0] && (pre + rest)[1..] == pre[1..] + rest;
      assert forall k :: 0 <= k < |pre[1..]| ==> pre[1..][k] == pre[k + 1];
      PostedAppend(hasChannel, pre[1..], rest);
      var head := if pre[0].data != [] && hasChannel then [pre[0]] else [];
      var tail, more := Posted(hasChannel, pre[1..]), Posted(hasChannel, rest);
      assert Posted(hasChannel, pre + rest) == head + (tail + more);
      AppendAssoc(head, tail, more);
    } else {
      EmptyAppend(rest);
    }
  }

  /** Once the listener is cancelled nothing more is posted, whatever the
      link would still deliver. */
  lemma PostedStopsAtCancel(hasChannel: bool, pre: seq<Read>, post: seq<Read>)
    requires forall k :: 0 <= k < |pre| ==> pre[k].Chunk?
    ensures Posted(hasChannel, pre + [ReadCancelled] + post) == Posted(hasChannel, pre)
  {
    AppendAssoc(pre, [ReadCancelled], post);
    PostedAppend(hasChannel, pre, [ReadCancelled] + post);
    assert Posted(hasChannel, [ReadCancelled] + post) == [];
    assert Posted(hasChannel, pre) + [] == Posted(hasChannel, pre);
  }

  /** A read error is reported once, and ends the listener. */
  lemma PostedStopsAtError(hasChannel: bool, pre: seq<Read>, error: string, post: seq<Read>)
    requires forall k :: 0 <= k < |pre| ==> pre[k].Chunk?
    ensures Posted(hasChannel, pre + [ReadRaises(error)] + post) ==
            Posted(hasChannel, pre) + (if hasChannel then [ReadRaises(error)] else [])
  {
    var r := ReadRaises(error);
    AppendAssoc(pre, [r], post);
    PostedAppend(hasChannel, pre, [r] + post);
    assert ([r] + post)[0] == r;
    assert Posted(hasChannel, [r] + post) == (if hasChannel then [r] else []);
  }

  lemma SpamChunkText()
    ensures "bob says: spam" + "\n" + "system: alert" + "\n" == "bob says: spam\nsystem: alert\n"
    ensures "\n" + "system: alert" + "\n" == "\nsystem: alert\n"
  {
  }

  lemma SpamEnvelopeText()
    ensures "```ansi\n" + "\nsystem: alert\n" + "\n```" == "```ansi\n\nsystem: alert\n\n```"
  {
  }

  /** A chunk with an ignored line followed by a kept one: the first line
      is blanked, its newline stays. */
  lemma BlankedFirstLine(ignored: seq<string>, a: string, c: string)
    requires '\n' !in a && '\n' !in c
    requires LineFilter.Matches(ignored, a) && !LineFilter.Matches(ignored, c)
    ensures LineFilter.Blanked(ignored, a + "\n" + c + "\n") == "\n" + c + "\n"
  {
    var lines := [a, c, []];
    LineFilter.JoinThree(a, c, []);
    assert LineFilter.NoNewlines(lines);
    LineFilter.MatchedLineHasSpace(ignored, []);
    assert LineFilter.BlankLines(ignored, lines) == [[], c, []];
    LineFilter.BlankedJoin(ignored, lines);
    LineFilter.JoinThree([], c, []);
    var t := a + "\n" + c + "\n";
    assert t + [] == t;
    assert [] + "\n" + c + "\n" + [] == "\n" + c + "\n";
  }

  lemma SpamLines()
    ensures LineFilter.Matches(["bob"], "bob says: spam")
    ensures !LineFilter.Matches(["bob"], "system: alert")
  {
    var a, c := "bob says: spam", "system: alert";
    LineFilter.MatchesOne("bob", a);
    LineFilter.MatchesOne("bob", c);
    assert "bob says:" <= a;
    assert ("bob says:")[0] != c[0];
  }

  lemma SpamBlanked()
    ensures LineFilter.Blanked(["bob"], "bob says: spam\nsystem: alert\n") == "\nsystem: alert\n"
  {
    var a, c := "bob says: spam", "system: alert";
    SpamChunkText();
    SpamLines();
    BlankedFirstLine(["bob"], a, c);
  }

  /** The message for a chunk with bob's line and a system line, bob being ignored. */
  lemma SpamMessage()
    ensures Message(["bob"], Chunk("bob says: spam\nsystem: alert\n")) == "```ansi\n\nsystem: alert\n\n```"
  {
    LineFilter.FilterWrapped(["bob"], "bob says: spam\nsystem: alert\n");
    SpamBlanked();
    SpamEnvelopeText();
  }

  // ---------------------------------------------------------------------
  // Sessions

  /** A second connect is refused and writes nothing more. */
  method ConnectTwice(config: Config, ch: Channel, other: Channel, login: Login)
    returns (first: bool, second: bool, msg: string, written: seq<string>)
    ensures first && !second && msg == "Already connected."
    ensures written == [Line(config.user), Line(config.password)]
  {
    var b := new TelnetDiscordBridge(config);
    var m;
    first, m := b.Connect(ch, LoggedIn);
    second, msg := b.Connect(other, login);
    written := b.writer.value.written;
  }

  /** Connect, and the listener reads one chunk holding an ignored line. */
  method RelaySpam(host: string, port: int, user: string, password: string, ch: Channel)
    returns (sent: seq<string>)
    ensures sent == ["```ansi\n\nsystem: alert\n\n```"]
  {
    var b := new TelnetDiscordBridge(Config(host, port, user, password, ["bob"]));
    var ok, m := b.Connect(ch, LoggedIn);
    var chunk := Chunk("bob says: spam\nsystem: alert\n");
    sent := b.Listen([chunk]);
    PostedOneChunk(chunk);
    SpamMessage();
  }

  lemma PostedOneChunk(r: Read)
    requires r.Chunk? && r.data != []
    ensures Posted(true, [r]) == [r]
  {
    assert [r][1..] == [];
  }

  /** After a clean disconnect the listener posts nothing, send writes
      nothing and raises nothing, and a second disconnect is refused. */
  method DisconnectThenSend(config: Config, ch: Channel, results: seq<Read>, message: string, drain: Outcome)
    returns (ok: bool, sent: seq<string>, r: Outcome, again: bool, msg: string, w: TelnetWriter)
    ensures ok && sent == [] && r == Ok && !again && msg == "Not connected."
    ensures w == TelnetWriter([Line(config.user), Line(config.password)], true)
  {
    var b := new TelnetDiscordBridge(config);
    var c, m := b.Connect(ch, LoggedIn);
    ok, m := b.Disconnect(Clean);
    sent := b.Listen(results);
    r := b.Send(message, drain);
    again, msg := b.Disconnect(Clean);
    w := b.writer.value;
  }

  /** When a step of the teardown raises, the listener is already
      cancelled and posts nothing more, yet the bridge stays connected: a
      new connect is refused and send still writes to the old writer. */
  method FailedDisconnect(config: Config, ch: Channel, teardown: Teardown, results: seq<Read>, message: string)
    returns (ok: bool, msg: string, task: ListenTask, heard: seq<string>, reconnect: bool, written: seq<string>)
    requires !teardown.Clean?
    ensures !ok && msg == "Error disconnecting: " + teardown.error
    ensures task == Cancelled && heard == [] && !reconnect
    ensures written == [Line(config.user), Line(config.password), Line(message)]
  {
    var b := new TelnetDiscordBridge(config);
    var c, m := b.Connect(ch, LoggedIn);
    ok, msg := b.Disconnect(teardown);
    task := b.listenTask;
    heard := b.Listen(results);
    reconnect, m := b.Connect(ch, LoggedIn);
    var r := b.Send(message, Ok);
    written := b.writer.value.written;
  }

  /** A read error is reported once to the channel, and the bridge is
      still connected afterwards: send keeps writing to the link. */
  method ListenerFault(config: Config, ch: Channel, error: string, later: seq<Read>, message: string)
    returns (sent: seq<string>, stillConnected: bool, written: seq<string>)
    ensures sent == ["Telnet listener error: " + error]
    ensures stillConnected
    ensures written == [Line(config.user), Line(config.password), Line(message)]
  {
    var b := new TelnetDiscordBridge(config);
    var c, m := b.Connect(ch, LoggedIn);
    var fault := ReadRaises(error);
    sent := b.Listen([fault] + later);
    assert ([fault] + later)[0] == fault;
    assert Posted(true, [fault] + later) == [fault];
    stillConnected := b.connected;
    var r := b.Send(message, Ok);
    written := b.writer.value.written;
  }

  /** A login whose password drain raises leaves the bridge disconnected
      but holding the half-used writer and the channel; send writes
      nothing, and a later connect starts over on a new writer. */
  method FailedLogin(config: Config, ch: Channel, error: string, message: string)
    returns (ok: bool, msg: string, kept: bool, retry: bool, written: seq<string>)
    ensures !ok && msg == "Failed to connect: " + error
    ensures kept && retry
    ensures written == [Line(config.user), Line(config.password)]
  {
    var b := new TelnetDiscordBridge(config);
    ok, msg := b.Connect(ch, PasswordDrainRaises(error));
    kept := b.channel == Some(ch) && b.writer.Some?;
    var r := b.Send(message, Ok);
    kept := kept && b.writer.value.written == [Line(config.user), Line(config.password)];
    var m;
    retry, m := b.Connect(ch, LoggedIn);
    written := b.writer.value.written;
  }
}
