/** The host side of a CIPURSE card session: the process-wide active context,
    the link it talks over, and the operations that drive them. Each method
    changes the session step by step as the C driver does, and is proved to
    leave exactly the state the specification functions of `SecureExchange`
    and `Authentication` describe. */
module Session {
  import opened Iso7816
  import opened Collaborators
  import opened Commands
  import opened SecureExchange
  import opened Authentication

  /** Copies `bytes` over the front of `buffer`, leaving the rest as it was. */
  method CopyInto(buffer: array<uint8>, bytes: seq<uint8>)
    requires |bytes| <= buffer.Length
    modifies buffer
    ensures buffer[..] == Overwrite(old(buffer[..]), bytes)
  {
    forall i | 0 <= i < |bytes| {
      buffer[i] := bytes[i];
    }
    assert buffer[..] == bytes + old(buffer[..])[|bytes|..];
  }

  class CipurseSession {
    /** The secure-channel context every exchange goes through. */
    var active: Context
    /** What has happened on the card link so far, oldest first. */
    var events: seq<Event>
    /** Primitives, link, selector and the APDU logging switch. */
    const env: Env

    constructor (env: Env)
      ensures this.env == env && active == Cleared && events == []
    {
      this.env := env;
      active := Cleared;
      events := [];
    }

    /** The call returned what `o` says and left this session and `result` as `o` says. */
    ghost predicate Reports(o: Outcome, code: int, resultLen: nat, sw: uint16, result: array<uint8>)
      reads this, result
    {
      && code == o.code && resultLen == o.resultLen && sw == o.sw
      && active == o.active && events == o.events && result[..] == o.buffer
    }

    /** One command through secure messaging and the link. `result.Length`
        is the room the caller gives for the response. */
    method ExchangeEx(activateField: bool, leaveFieldOn: bool, apdu: Apdu, includeLe: bool, le: uint16,
                      result: array<uint8>)
      returns (code: int, resultLen: nat, sw: uint16)
      modifies this, result
      ensures Reports(Exchange(env, old(active), old(events), old(result[..]), activateField, leaveFieldOn,
                               Command(apdu, includeLe, le)), code, resultLen, sw, result)
    {
      ghost var cmd, context0, events0, buffer0 := Command(apdu, includeLe, le), active, events, result[..];
      resultLen, sw := 0, 0;
      if activateField {
        events := events + [FieldDropped];
      }
      if apdu.lc > MaxCommandData {
        return ErrTooLong, resultLen, sw;
      }

      var xle := ExpectedLength(includeLe, le);
      var wrapped := env.prims.reqEncode(active, apdu, includeLe, le);
      active := wrapped.0;
      var encoded := env.prims.apduEncode(wrapped.1, xle);
      assert Wrap(env, context0, cmd) == Request(active, encoded);
      if encoded.None? {
        return ErrEncoding, resultLen, sw;
      }

      events := events + [FrameSent(encoded.value, activateField, leaveFieldOn)];
      var reply := env.link(events, result.Length);
      assert reply == Reply(env, events0, |buffer0|, activateField, leaveFieldOn, encoded.value);
      CopyInto(result, reply.data);
      ghost var o := Respond(env, active, events, result[..], reply);
      assert Exchange(env, context0, events0, buffer0, activateField, leaveFieldOn, cmd) == o;
      resultLen := |reply.data|;
      if reply.err != 0 {
        return reply.err, resultLen, sw;
      }
      if resultLen < 2 {
        return ErrShortResponse, resultLen, sw;
      }

      var rlen := 0;
      var isw;
      if resultLen == 2 {
        if active.request == MACed || active.request == Encrypted {
          active := Cleared;
        }
        isw := StatusWord(result[0], result[1]);
        assert o == Outcome(StatusCode(isw, env.logging), 0, isw, active, events, result[..]);
      } else {
        assert result[..resultLen] == reply.data;
        var decoded := env.prims.respDecode(active, result[..resultLen]);
        active := decoded.ctx;
        rlen, isw := |decoded.plain|, decoded.sw;
        CopyInto(result, decoded.plain);
        assert o == Outcome(StatusCode(isw, env.logging), rlen, isw, active, events, result[..]);
      }
      resultLen, sw := rlen, isw;

      if isw != SwSuccess && env.logging && Sw1(isw) != SwMoreData {
        // a card error other than 61XX, reported only while APDU logging is on
        return ErrCardStatus, resultLen, sw;
      }
      return Success, resultLen, sw;
    }

    /** Clears the active context, then selects the CIPURSE application by name. */
    method Select(activateField: bool, leaveFieldOn: bool, result: array<uint8>)
      returns (code: int, resultLen: nat, sw: uint16)
      modifies this, result
      ensures Reports(SecureExchange.Select(env, old(events), old(result[..]), activateField, leaveFieldOn),
                      code, resultLen, sw, result)
    {
      active := Cleared;
      events := events + [SelectSent(CipurseAid, activateField, leaveFieldOn)];
      var reply := env.select(events, result.Length);
      CopyInto(result, reply.data);
      code, resultLen, sw := reply.code, |reply.data|, reply.sw;
    }

    method Challenge(result: array<uint8>) returns (code: int, resultLen: nat, sw: uint16)
      modifies this, result
      ensures Reports(Exchange(env, old(active), old(events), old(result[..]), false, true, ChallengeCommand()),
                      code, resultLen, sw, result)
    {
      var c := ChallengeCommand();
      code, resultLen, sw := ExchangeEx(false, true, c.apdu, c.includeLe, c.le, result);
    }

    method MutualAuthenticate(keyIndex: uint8, params: seq<uint8>, result: array<uint8>)
      returns (code: int, resultLen: nat, sw: uint16)
      requires |params| < 0x100
      modifies this, result
      ensures Reports(Exchange(env, old(active), old(events), old(result[..]), false, true,
                               MutualAuthenticateCommand(keyIndex, params)), code, resultLen, sw, result)
    {
      var c := MutualAuthenticateCommand(keyIndex, params);
      code, resultLen, sw := ExchangeEx(false, true, c.apdu, c.includeLe, c.le, result);
    }

    method SelectFile(fileId: uint16, result: array<uint8>) returns (code: int, resultLen: nat, sw: uint16)
      modifies this, result
      ensures Reports(Exchange(env, old(active), old(events), old(result[..]), false, true, SelectFileCommand(fileId)),
                      code, resultLen, sw, result)
    {
      var c := SelectFileCommand(fileId);
      code, resultLen, sw := ExchangeEx(false, true, c.apdu, c.includeLe, c.le, result);
    }

    method ReadBinary(offset: uint16, result: array<uint8>) returns (code: int, resultLen: nat, sw: uint16)
      modifies this, result
      ensures Reports(Exchange(env, old(active), old(events), old(result[..]), false, true, ReadBinaryCommand(offset)),
                      code, resultLen, sw, result)
    {
      var c := ReadBinaryCommand(offset);
      code, resultLen, sw := ExchangeEx(false, true, c.apdu, c.includeLe, c.le, result);
    }

    /** The authentication handshake; on success the locally built context
        becomes the active one. */
    method ChannelAuthenticate(keyIndex: uint8, key: seq<uint8>) returns (ok: bool)
      modifies this
      ensures var a := Authenticate(env, old(active), old(events), keyIndex, key);
        ok == a.ok && active == a.active && events == a.events
    {
      var buf := new uint8[ResponseBufferLength](_ => 0);
      assert buf[..] == EmptyBuffer();
      var local := env.prims.setKey(keyIndex, key);

      ghost var c := ChallengeStep(env, active, events);
      var res, len, sw := Challenge(buf);
      if res != 0 || len != ChallengeLength {
        return false;
      }
      local := env.prims.setRandomFromCard(local, buf[..ChallengeLength]);

      var host := env.prims.authenticateHost(local);
      var authParams;
      local, authParams := host.0, host.1;

      ghost var m := MutualStep(env, keyIndex, key, c);
      res, len, sw := MutualAuthenticate(keyIndex, authParams, buf);
      assert m.buffer == buf[..];
      if res != 0 || sw != SwSuccess || len != CryptogramLength {
        active := Cleared;
        return false;
      }

      if env.prims.checkCT(local, buf[..CryptogramLength]) {
        active := WithLevels(local, MACed, MACed);
        return true;
      } else {
        active := Cleared;
        return false;
      }
    }

    /** Sets the request and response levels of the active context. */
    method SetActiveSecurityLevels(request: SecurityLevel, response: SecurityLevel)
      modifies this
      ensures active == WithLevels(old(active), request, response) && events == old(events)
    {
      active := WithLevels(active, request, response);
    }
  }
}
