/** What the CIPURSE core uses but does not define: the secure-channel context,
    the cryptographic primitives, the APDU byte encoder, and the card link.
    Each external routine is a function passed in, so every property proved
    about the core holds whatever these routines compute, within the bounds
    the types `Link`, `Selector` and `Decoder` state. */
module Collaborators {
  import opened Iso7816

  datatype Option<T> = None | Some(value: T)

  /** Protection of one direction of the channel. `Unset` is the zero value,
      the level a cleared context holds. */
  datatype SecurityLevel = Unset | Plain | MACed | Encrypted

  /** The secure-channel context: the two levels the core reads and sets, and
      the rest of it (key, both randoms, session keys, MAC chaining state)
      as bytes that only the primitives interpret. */
  datatype Context = Context(request: SecurityLevel, response: SecurityLevel, secrets: seq<uint8>)

  /** A context whose every byte is zero. */
  const Cleared: Context := Context(Unset, Unset, [])

  /** The context with both levels replaced and everything else kept. */
  function WithLevels(ctx: Context, request: SecurityLevel, response: SecurityLevel): Context {
    ctx.(request := request, response := response)
  }

  /** What the host does on the card link, in order. */
  datatype Event =
    | FieldDropped
    | FrameSent(frame: seq<uint8>, activateField: bool, leaveFieldOn: bool)
    | SelectSent(aid: seq<uint8>, activateField: bool, leaveFieldOn: bool)

  /** The link's answer to the last frame: an error code (0 when the exchange
      worked) and the raw response bytes it wrote. */
  datatype LinkReply = LinkReply(err: int, data: seq<uint8>)

  /** The card link, as a function of everything sent so far and of the room
      in the caller's buffer. It never writes more than that room. */
  type Link = f: (seq<Event>, nat) -> LinkReply | forall h, room :: |f(h, room).data| <= room
    witness (h: seq<Event>, room: nat) => LinkReply(1, [])

  /** The answer to a SELECT by application name: code, payload and status word. */
  datatype SelectReply = SelectReply(code: int, data: seq<uint8>, sw: uint16)

  type Selector = f: (seq<Event>, nat) -> SelectReply | forall h, room :: |f(h, room).data| <= room
    witness (h: seq<Event>, room: nat) => SelectReply(1, [], 0)

  /** The response unwrapper's output: updated context, plaintext and status word. */
  datatype Decoded = Decoded(ctx: Context, plain: seq<uint8>, sw: uint16)

  /** The plaintext is never longer than the raw response it came from. */
  type Decoder = f: (Context, seq<uint8>) -> Decoded | forall c, raw :: |f(c, raw).plain| <= |raw|
    witness (c: Context, raw: seq<uint8>) => Decoded(c, [], 0)

  /** The host's authentication parameters: 16 + 16 + 6 bytes. */
  type AuthBlock = s: seq<uint8> | |s| == 38 witness seq(38, _ => 0)

  datatype Primitives = Primitives(
    /** Key set-up on a zeroed context, for a key index and key. */
    setKey: (uint8, seq<uint8>) -> Context,
    /** Stores the card's random material (22 bytes) in the context. */
    setRandomFromCard: (Context, seq<uint8>) -> Context,
    /** Derives the host randoms (their draw folded into this function), the
        session keys and the parameter block. */
    authenticateHost: Context -> (Context, AuthBlock),
    /** Checks the card's 16-byte cryptogram against the context. */
    checkCT: (Context, seq<uint8>) -> bool,
    /** Wraps a plain command at the context's request level: new context, wrapped APDU. */
    reqEncode: (Context, Apdu, bool, uint16) -> (Context, Apdu),
    /** Unwraps a response at the context's response level. */
    respDecode: Decoder,
    /** Lays an APDU out as bytes for a given expected length; None on failure. */
    apduEncode: (Apdu, uint16) -> Option<seq<uint8>>)

  /** Everything outside the core: primitives, link, application selector, and
      whether APDU logging is switched on. */
  datatype Env = Env(prims: Primitives, link: Link, select: Selector, logging: bool)

  /** The frames that reached the link, in order. */
  function SentFrames(events: seq<Event>): (frames: seq<seq<uint8>>)
    ensures |frames| <= |events|
  {
    if events == [] then []
    else
      var last := events[|events| - 1];
      SentFrames(events[..|events| - 1]) + (if last.FrameSent? then [last.frame] else [])
  }

  lemma {:induction false} SentFramesAppend(a: seq<Event>, b: seq<Event>)
    ensures SentFrames(a + b) == SentFrames(a) + SentFrames(b)
    decreases |b|
  {
    if b == [] {
      assert a + b == a;
    } else {
      var last := b[|b| - 1];
      var b' := b[..|b| - 1];
      assert (a + b)[..|a + b| - 1] == a + b';
      assert (a + b)[|a + b| - 1] == last;
      SentFramesAppend(a, b');
    }
  }

  /** An event that is not a frame adds no transport invocation; a frame adds exactly itself. */
  lemma SentFramesOfOne(a: seq<Event>, e: Event)
    ensures SentFrames(a + [e]) == SentFrames(a) + (if e.FrameSent? then [e.frame] else [])
  {
    SentFramesAppend(a, [e]);
    assert [e][..0] == [];
  }
}
