/** The two-round-trip CIPURSE authentication: GET CHALLENGE, then MUTUAL
    AUTHENTICATE with the host's parameter block, then the check of the card's
    cryptogram. Both exchanges go through the active context; the new session
    is built in a separate local context and committed only on success. */
module Authentication {
  import opened Iso7816
  import opened Collaborators
  import opened Commands
  import opened SecureExchange

  /** Size of the response buffer the handshake uses (APDU_RES_LEN). */
  const ResponseBufferLength: nat := 260

  /** The handshake's buffer as it is declared: all zero. */
  function EmptyBuffer(): (b: seq<uint8>)
    ensures |b| == ResponseBufferLength
  {
    seq(ResponseBufferLength, _ => 0)
  }

  /** Everything a handshake leaves behind. */
  datatype AuthOutcome = AuthOutcome(ok: bool, active: Context, events: seq<Event>)

  /** Round trip 1: GET CHALLENGE through the active context. */
  function ChallengeStep(env: Env, active: Context, events: seq<Event>): (c: Outcome)
    ensures |c.buffer| == ResponseBufferLength
  {
    Exchange(env, active, events, EmptyBuffer(), false, true, ChallengeCommand())
  }

  /** The challenge succeeded with exactly 22 bytes of card random material. */
  predicate ChallengeOk(c: Outcome) {
    c.code == Success && c.resultLen == ChallengeLength
  }

  /** The local context once the key is set and the card's random is stored,
      with the parameter block the host computed from it. */
  function HostAuthentication(env: Env, keyIndex: uint8, key: seq<uint8>, c: Outcome): (Context, AuthBlock)
    requires |c.buffer| == ResponseBufferLength
  {
    var local := env.prims.setRandomFromCard(env.prims.setKey(keyIndex, key), c.buffer[..ChallengeLength]);
    env.prims.authenticateHost(local)
  }

  /** Round trip 2: MUTUAL AUTHENTICATE with the parameter block, reusing the buffer. */
  function MutualStep(env: Env, keyIndex: uint8, key: seq<uint8>, c: Outcome): (m: Outcome)
    requires |c.buffer| == ResponseBufferLength
    ensures |m.buffer| == ResponseBufferLength
  {
    var (_, block) := HostAuthentication(env, keyIndex, key, c);
    Exchange(env, c.active, c.events, c.buffer, false, true, MutualAuthenticateCommand(keyIndex, block))
  }

  /** The card accepted: no error, status 9000 and a 16-byte cryptogram. */
  predicate MutualOk(m: Outcome) {
    m.code == Success && m.sw == SwSuccess && m.resultLen == CryptogramLength
  }

  /** The card's cryptogram, as checked against the local context. */
  predicate CryptogramOk(env: Env, keyIndex: uint8, key: seq<uint8>, c: Outcome, m: Outcome)
    requires |c.buffer| == ResponseBufferLength && |m.buffer| == ResponseBufferLength
  {
    var (local, _) := HostAuthentication(env, keyIndex, key, c);
    env.prims.checkCT(local, m.buffer[..CryptogramLength])
  }

  /** The whole handshake with key `key` at index `keyIndex`. */
  function Authenticate(env: Env, active: Context, events: seq<Event>, keyIndex: uint8, key: seq<uint8>): (a: AuthOutcome)
    ensures a.ok ==> a.active.request == MACed && a.active.response == MACed
    ensures !a.ok ==> a.active == Cleared || a.active == ChallengeStep(env, active, events).active
    ensures events <= a.events
  {
    var c := ChallengeStep(env, active, events);
    if !ChallengeOk(c) then
      AuthOutcome(false, c.active, c.events)
    else
      var m := MutualStep(env, keyIndex, key, c);
      if !MutualOk(m) then
        AuthOutcome(false, Cleared, m.events)
      else if CryptogramOk(env, keyIndex, key, c, m) then
        var (local, _) := HostAuthentication(env, keyIndex, key, c);
        AuthOutcome(true, WithLevels(local, MACed, MACed), m.events)
      else
        AuthOutcome(false, Cleared, m.events)
  }

  /** Authentication succeeds exactly when all three checks pass, and then the
      active context is the locally built one with both levels MACed. */
  lemma AuthenticateSucceedsIff(env: Env, active: Context, events: seq<Event>, keyIndex: uint8, key: seq<uint8>)
    ensures var a := Authenticate(env, active, events, keyIndex, key);
      var c := ChallengeStep(env, active, events);
      a.ok <==> ChallengeOk(c) && MutualOk(MutualStep(env, keyIndex, key, c))
                && CryptogramOk(env, keyIndex, key, c, MutualStep(env, keyIndex, key, c))
    ensures var a := Authenticate(env, active, events, keyIndex, key);
      var c := ChallengeStep(env, active, events);
      a.ok ==> a.active == WithLevels(HostAuthentication(env, keyIndex, key, c).0, MACed, MACed)
  {
  }

  /** A failed challenge returns false and leaves the active context as the
      challenge exchange left it: the handshake itself neither clears nor
      commits, and no second frame is sent. */
  lemma ChallengeFailureKeepsContext(env: Env, active: Context, events: seq<Event>, keyIndex: uint8, key: seq<uint8>)
    requires !ChallengeOk(ChallengeStep(env, active, events))
    ensures var a := Authenticate(env, active, events, keyIndex, key);
      var c := ChallengeStep(env, active, events);
      !a.ok && a.active == c.active && a.events == c.events
      && |SentFrames(a.events)| <= |SentFrames(events)| + 1
  {
  }

  /** Once the challenge has succeeded, any failure clears the active context. */
  lemma LateFailureClears(env: Env, active: Context, events: seq<Event>, keyIndex: uint8, key: seq<uint8>)
    requires ChallengeOk(ChallengeStep(env, active, events))
    ensures var a := Authenticate(env, active, events, keyIndex, key);
      !a.ok ==> a.active == Cleared
  {
  }

  /** A handshake sends at most two frames, and exactly two when it succeeds:
      GET CHALLENGE, then MUTUAL AUTHENTICATE. */
  lemma {:induction false} AuthenticateFrames(env: Env, active: Context, events: seq<Event>, keyIndex: uint8, key: seq<uint8>)
    ensures var a := Authenticate(env, active, events, keyIndex, key);
      |SentFrames(a.events)| <= |SentFrames(events)| + 2
    ensures var a := Authenticate(env, active, events, keyIndex, key);
      a.ok ==> |SentFrames(a.events)| == |SentFrames(events)| + 2
  {
    var c := ChallengeStep(env, active, events);
    FramesOfExchange(env, active, events, EmptyBuffer(), false, true, ChallengeCommand());
    if ChallengeOk(c) {
      var (_, block) := HostAuthentication(env, keyIndex, key, c);
      var cmd := MutualAuthenticateCommand(keyIndex, block);
      FramesOfExchange(env, c.active, c.events, c.buffer, false, true, cmd);
      TemplatesFitLimit(keyIndex, block, 0, 0);
      var m := MutualStep(env, keyIndex, key, c);
      if MutualOk(m) {
        assert Wrap(env, c.active, cmd).frame.Some?;
      }
    }
  }
}
