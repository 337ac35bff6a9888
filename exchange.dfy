/** The secure exchange: one command through the active context's secure
    messaging, the byte encoder and the card link, and the response back. The
    function `Exchange` gives the complete effect of one call (return code,
    output length, status word, new active context, link events, caller's
    buffer); the lemmas below state what each path promises. */
module SecureExchange {
  import opened Iso7816
  import opened Collaborators
  import opened Commands

  const Success: int := 0
  const ErrCardStatus: int := 5
  const ErrTooLong: int := 20
  const ErrShortResponse: int := 200
  const ErrEncoding: int := 201

  /** The expected length handed to the byte encoder: no Le field at all, the
      maximum 0x100 for "as much as there is", or the length asked for. */
  function ExpectedLength(includeLe: bool, le: uint16): (xle: uint16)
    ensures (xle == 0) == !includeLe
    ensures includeLe && le == 0 ==> xle == 0x100
    ensures includeLe && le != 0 ==> xle == le
  {
    var xle := if includeLe then 0x100 else 0x00;
    if xle == 0x100 && le != 0 then le else xle
  }

  /** The return code of an exchange that got a status word back: a card
      error is reported only while APDU logging is on, and never for 61XX. */
  function StatusCode(sw: uint16, logging: bool): (code: int)
    ensures code == Success || code == ErrCardStatus
    ensures code == ErrCardStatus <==> logging && sw != SwSuccess && !IsMoreData(sw)
  {
    if sw != SwSuccess && logging && Sw1(sw) != SwMoreData then ErrCardStatus else Success
  }

  /** Everything one exchange leaves behind. */
  datatype Outcome = Outcome(code: int, resultLen: nat, sw: uint16,
                             active: Context, events: seq<Event>, buffer: seq<uint8>)

  /** A buffer whose first bytes are overwritten in place (what memcpy does). */
  function Overwrite(buffer: seq<uint8>, bytes: seq<uint8>): (r: seq<uint8>)
    requires |bytes| <= |buffer|
    ensures |r| == |buffer| && r[..|bytes|] == bytes && r[|bytes|..] == buffer[|bytes|..]
  {
    bytes + buffer[|bytes|..]
  }

  /** Link events after the optional field drop at the start of an exchange. */
  function AfterDrop(events: seq<Event>, activateField: bool): seq<Event> {
    if activateField then events + [FieldDropped] else events
  }

  /** The request side: the context after secure messaging wrapped the command,
      and the frame bytes, if the encoder could lay them out. */
  datatype Request = Request(ctx: Context, frame: Option<seq<uint8>>)

  function Wrap(env: Env, active: Context, cmd: Command): Request {
    var (ctx, secured) := env.prims.reqEncode(active, cmd.apdu, cmd.includeLe, cmd.le);
    Request(ctx, env.prims.apduEncode(secured, ExpectedLength(cmd.includeLe, cmd.le)))
  }

  /** Link events once a frame has been sent. */
  function AfterSend(events: seq<Event>, activateField: bool, leaveFieldOn: bool, frame: seq<uint8>): seq<Event> {
    AfterDrop(events, activateField) + [FrameSent(frame, activateField, leaveFieldOn)]
  }

  /** What the link answers to the frame, given the room in the buffer. */
  function Reply(env: Env, events: seq<Event>, room: nat, activateField: bool, leaveFieldOn: bool,
                 frame: seq<uint8>): LinkReply
  {
    env.link(AfterSend(events, activateField, leaveFieldOn, frame), room)
  }

  /** The response side, once the link has written `reply.data` into the buffer. */
  function Respond(env: Env, ctx: Context, events: seq<Event>, buffer: seq<uint8>, reply: LinkReply): Outcome
    requires |reply.data| <= |buffer|
  {
    var n := |reply.data|;
    if reply.err != 0 then
      Outcome(reply.err, n, 0, ctx, events, buffer)
    else if n < 2 then
      Outcome(ErrShortResponse, n, 0, ctx, events, buffer)
    else if n == 2 then
      var sw := StatusWord(reply.data[0], reply.data[1]);
      var ctx' := if ctx.request == MACed || ctx.request == Encrypted then Cleared else ctx;
      Outcome(StatusCode(sw, env.logging), 0, sw, ctx', events, buffer)
    else
      var d := env.prims.respDecode(ctx, reply.data);
      Outcome(StatusCode(d.sw, env.logging), |d.plain|, d.sw, d.ctx, events, Overwrite(buffer, d.plain))
  }

  /** One exchange, started with the active context `active`, link history
      `events` and the caller's buffer `buffer` (its length is the room the
      link may fill). */
  function Exchange(env: Env, active: Context, events: seq<Event>, buffer: seq<uint8>,
                    activateField: bool, leaveFieldOn: bool, cmd: Command): (o: Outcome)
    ensures |o.buffer| == |buffer| && o.resultLen <= |buffer|
    ensures events <= o.events && |o.events| <= |events| + 2
  {
    var dropped := AfterDrop(events, activateField);
    if cmd.apdu.lc > MaxCommandData then
      Outcome(ErrTooLong, 0, 0, active, dropped, buffer)
    else
      var req := Wrap(env, active, cmd);
      match req.frame
      case None =>
        Outcome(ErrEncoding, 0, 0, req.ctx, dropped, buffer)
      case Some(frame) =>
        var reply := Reply(env, events, |buffer|, activateField, leaveFieldOn, frame);
        Respond(env, req.ctx, AfterSend(events, activateField, leaveFieldOn, frame),
                Overwrite(buffer, reply.data), reply)
  }

  /** Over-long command data is refused with 20 before anything is wrapped,
      encoded or sent; only the requested field drop has happened. */
  lemma OversizeRejected(env: Env, active: Context, events: seq<Event>, buffer: seq<uint8>,
                         activateField: bool, leaveFieldOn: bool, cmd: Command)
    requires cmd.apdu.lc > MaxCommandData
    ensures var o := Exchange(env, active, events, buffer, activateField, leaveFieldOn, cmd);
      && o.code == ErrTooLong && o.resultLen == 0 && o.sw == 0
      && o.active == active && o.buffer == buffer
      && o.events == events + (if activateField then [FieldDropped] else [])
      && SentFrames(o.events) == SentFrames(events)
  {
  }

  /** A frame reaches the link exactly when the data fits and the encoder
      succeeds, and then it is the only one. */
  lemma FramesOfExchange(env: Env, active: Context, events: seq<Event>, buffer: seq<uint8>,
                         activateField: bool, leaveFieldOn: bool, cmd: Command)
    ensures var o := Exchange(env, active, events, buffer, activateField, leaveFieldOn, cmd);
      var req := Wrap(env, active, cmd);
      SentFrames(o.events) ==
        SentFrames(events) + (if cmd.apdu.lc <= MaxCommandData && req.frame.Some? then [req.frame.value] else [])
  {
    var o := Exchange(env, active, events, buffer, activateField, leaveFieldOn, cmd);
    var req := Wrap(env, active, cmd);
    var dropped := AfterDrop(events, activateField);
    SentFramesOfOne(events, FieldDropped);
    assert SentFrames(dropped) == SentFrames(events);
    if cmd.apdu.lc <= MaxCommandData && req.frame.Some? {
      var frame := req.frame.value;
      var reply := Reply(env, events, |buffer|, activateField, leaveFieldOn, frame);
      assert o == Respond(env, req.ctx, dropped + [FrameSent(frame, activateField, leaveFieldOn)],
                          Overwrite(buffer, reply.data), reply);
      assert o.events == dropped + [FrameSent(frame, activateField, leaveFieldOn)];
      SentFramesOfOne(dropped, FrameSent(frame, activateField, leaveFieldOn));
    } else {
      assert o.events == dropped;
    }
  }

  /** An encoder failure returns 201 after secure messaging has already run;
      nothing is sent and the buffer is untouched. */
  lemma EncodingFailure(env: Env, active: Context, events: seq<Event>, buffer: seq<uint8>,
                        activateField: bool, leaveFieldOn: bool, cmd: Command)
    requires cmd.apdu.lc <= MaxCommandData && Wrap(env, active, cmd).frame.None?
    ensures var o := Exchange(env, active, events, buffer, activateField, leaveFieldOn, cmd);
      && o.code == ErrEncoding && o.resultLen == 0 && o.sw == 0
      && o.active == Wrap(env, active, cmd).ctx && o.buffer == buffer
      && o.events == AfterDrop(events, activateField)
  {
  }

  /** A link error is returned verbatim with status 0; the response path does
      not touch the context, which is as secure messaging left it. */
  lemma TransportErrorPassedThrough(env: Env, active: Context, events: seq<Event>, buffer: seq<uint8>,
                                    activateField: bool, leaveFieldOn: bool, cmd: Command)
    requires cmd.apdu.lc <= MaxCommandData
    requires Wrap(env, active, cmd).frame.Some?
    requires Reply(env, events, |buffer|, activateField, leaveFieldOn, Wrap(env, active, cmd).frame.value).err != 0
    ensures var req := Wrap(env, active, cmd);
      var reply := Reply(env, events, |buffer|, activateField, leaveFieldOn, req.frame.value);
      var o := Exchange(env, active, events, buffer, activateField, leaveFieldOn, cmd);
      && o.code == reply.err && o.code != Success && o.sw == 0
      && o.active == req.ctx
      && o.events == AfterSend(events, activateField, leaveFieldOn, req.frame.value)
  {
  }

  /** Fewer than two response bytes cannot hold a status word: 200. */
  lemma ShortResponse(env: Env, active: Context, events: seq<Event>, buffer: seq<uint8>,
                      activateField: bool, leaveFieldOn: bool, cmd: Command)
    requires cmd.apdu.lc <= MaxCommandData
    requires Wrap(env, active, cmd).frame.Some?
    requires var reply := Reply(env, events, |buffer|, activateField, leaveFieldOn, Wrap(env, active, cmd).frame.value);
      reply.err == 0 && |reply.data| < 2
    ensures var o := Exchange(env, active, events, buffer, activateField, leaveFieldOn, cmd);
      o.code == ErrShortResponse && o.sw == 0 && o.resultLen < 2 && o.active == Wrap(env, active, cmd).ctx
  {
  }

  /** A two-byte response is a bare status word: no output, and the context
      is cleared exactly when the request level is MACed or Encrypted,
      whatever the status says. */
  lemma BareStatusWord(env: Env, active: Context, events: seq<Event>, buffer: seq<uint8>,
                       activateField: bool, leaveFieldOn: bool, cmd: Command)
    requires cmd.apdu.lc <= MaxCommandData
    requires Wrap(env, active, cmd).frame.Some?
    requires var reply := Reply(env, events, |buffer|, activateField, leaveFieldOn, Wrap(env, active, cmd).frame.value);
      reply.err == 0 && |reply.data| == 2
    ensures var req := Wrap(env, active, cmd);
      var reply := Reply(env, events, |buffer|, activateField, leaveFieldOn, req.frame.value);
      var o := Exchange(env, active, events, buffer, activateField, leaveFieldOn, cmd);
      && o.sw == StatusWord(reply.data[0], reply.data[1])
      && o.resultLen == 0
      && (req.ctx.request in {MACed, Encrypted} ==> o.active == Cleared)
      && (req.ctx.request !in {MACed, Encrypted} ==> o.active == req.ctx)
      && o.code == StatusCode(o.sw, env.logging)
      && o.buffer[..2] == reply.data && o.buffer[2..] == buffer[2..]
  {
  }

  /** A longer response goes through the unwrapper: the output length is the
      plaintext's, which overwrites the front of the buffer, and the status
      word and context are the unwrapper's. */
  lemma DecodedResponse(env: Env, active: Context, events: seq<Event>, buffer: seq<uint8>,
                        activateField: bool, leaveFieldOn: bool, cmd: Command)
    requires cmd.apdu.lc <= MaxCommandData
    requires Wrap(env, active, cmd).frame.Some?
    requires var reply := Reply(env, events, |buffer|, activateField, leaveFieldOn, Wrap(env, active, cmd).frame.value);
      reply.err == 0 && |reply.data| > 2
    ensures var req := Wrap(env, active, cmd);
      var reply := Reply(env, events, |buffer|, activateField, leaveFieldOn, req.frame.value);
      var d := env.prims.respDecode(req.ctx, reply.data);
      var o := Exchange(env, active, events, buffer, activateField, leaveFieldOn, cmd);
      && o.resultLen == |d.plain| <= |reply.data|
      && o.buffer[..o.resultLen] == d.plain
      && o.buffer[|reply.data|..] == buffer[|reply.data|..]
      && o.sw == d.sw && o.active == d.ctx
      && o.code == StatusCode(d.sw, env.logging)
  {
  }

  /** The APDU logging switch changes nothing but the return code, and that
      only from 0 to 5 for a card error other than 61XX. */
  lemma LoggingOnlyChangesCode(env: Env, active: Context, events: seq<Event>, buffer: seq<uint8>,
                               activateField: bool, leaveFieldOn: bool, cmd: Command)
    ensures var quiet := Exchange(env.(logging := false), active, events, buffer, activateField, leaveFieldOn, cmd);
      var loud := Exchange(env.(logging := true), active, events, buffer, activateField, leaveFieldOn, cmd);
      && quiet.(code := loud.code) == loud
      && (quiet.code != loud.code ==>
            quiet.code == Success && loud.code == ErrCardStatus
            && loud.sw != SwSuccess && !IsMoreData(loud.sw))
  {
  }

  /** With APDU logging off the status word never makes an exchange fail: the
      code is 0 exactly when a frame was sent and at least two response bytes
      came back without a link error. */
  lemma QuietCodeIgnoresStatus(env: Env, active: Context, events: seq<Event>, buffer: seq<uint8>,
                               activateField: bool, leaveFieldOn: bool, cmd: Command)
    requires !env.logging
    ensures var o := Exchange(env, active, events, buffer, activateField, leaveFieldOn, cmd);
      var req := Wrap(env, active, cmd);
      o.code == Success <==>
        && cmd.apdu.lc <= MaxCommandData && req.frame.Some?
        && Reply(env, events, |buffer|, activateField, leaveFieldOn, req.frame.value).err == 0
        && |Reply(env, events, |buffer|, activateField, leaveFieldOn, req.frame.value).data| >= 2
  {
  }

  /** Every return code is one of the exchange's own or the link's error. */
  lemma ReturnCodes(env: Env, active: Context, events: seq<Event>, buffer: seq<uint8>,
                    activateField: bool, leaveFieldOn: bool, cmd: Command)
    ensures var o := Exchange(env, active, events, buffer, activateField, leaveFieldOn, cmd);
      || o.code in {Success, ErrCardStatus, ErrTooLong, ErrShortResponse, ErrEncoding}
      || (cmd.apdu.lc <= MaxCommandData && Wrap(env, active, cmd).frame.Some?
          && o.code == Reply(env, events, |buffer|, activateField, leaveFieldOn, Wrap(env, active, cmd).frame.value).err)
  {
  }

  /** None of the templates is refused for length (the authentication block
      is 38 bytes). */
  lemma TemplatesFitLimit(keyIndex: uint8, block: AuthBlock, fileId: uint16, offset: uint16)
    ensures ChallengeCommand().apdu.lc <= MaxCommandData
    ensures MutualAuthenticateCommand(keyIndex, block).apdu.lc <= MaxCommandData
    ensures SelectFileCommand(fileId).apdu.lc <= MaxCommandData
    ensures ReadBinaryCommand(offset).apdu.lc <= MaxCommandData
  {
  }

  /** The CIPURSE application name, "AD F1". */
  const CipurseAid: seq<uint8> := [0x41, 0x44, 0x20, 0x46, 0x31]

  /** SELECT of the CIPURSE application: the active context is cleared first,
      then the selector is asked by name, outside secure messaging. */
  function Select(env: Env, events: seq<Event>, buffer: seq<uint8>,
                  activateField: bool, leaveFieldOn: bool): (o: Outcome)
    ensures o.active == Cleared
    ensures o.events == events + [SelectSent(CipurseAid, activateField, leaveFieldOn)]
    ensures |o.buffer| == |buffer| && o.resultLen <= |buffer|
  {
    var sent := events + [SelectSent(CipurseAid, activateField, leaveFieldOn)];
    var reply := env.select(sent, |buffer|);
    Outcome(reply.code, |reply.data|, reply.sw, Cleared, sent, Overwrite(buffer, reply.data))
  }

  /** SELECT never goes through the secure-channel link. */
  lemma SelectSendsNoFrame(env: Env, events: seq<Event>, buffer: seq<uint8>,
                           activateField: bool, leaveFieldOn: bool)
    ensures SentFrames(Select(env, events, buffer, activateField, leaveFieldOn).events) == SentFrames(events)
  {
  }
}
