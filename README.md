# CIPURSE host-side transport and secure channel, in Dafny

This project models the control logic of the CIPURSE driver in the Proxmark3
client (`client/src/cipurse/cipursecore.c`). That driver lets the host talk to a
CIPURSE card. It covers five things:

- the secure exchange (`CIPURSEExchangeEx`), which wraps a command with the
  active context's secure messaging, lays it out as bytes, sends it, and
  interprets the response;
- the fixed command templates: GET CHALLENGE, MUTUAL AUTHENTICATE, SELECT FILE
  and READ BINARY;
- SELECT of the CIPURSE application, which first clears the active context;
- the two-round-trip authentication handshake, which commits a new context
  with both security levels MACed, or clears the active one, or (when GET
  CHALLENGE fails) leaves the active context as that exchange left it;
- setting the active context's security levels.

Some of the driver's collaborators stay abstract: the cryptographic primitives
(`CipurseC*`), the APDU byte encoder, the card link and the EMV application
selector. Each of them is a function handed to the model in `Env`. As a result,
every property below holds whatever those routines compute, within the bounds
listed under "## Left out" (the link and the selector never write more than
the buffer holds, and the unwrapper never returns more plaintext than it was
given).

The card link is a function of the full history of link events (field drops,
frames sent, application selects). So any scripted card is an instance of it.
The process-wide `cipurseContext` is the field `active` of the class
`Session.CipurseSession`, and the caller's response buffer is an `array`. The
methods overwrite that buffer in place, as the C code does with `memcpy`.

Files:

- `iso7816.dfy`: byte types, the command APDU (section 5.1 of ISO/IEC 7816-4)
  and status words (section 5.6).
- `collaborators.dfy`: the context, security levels, link events and the
  external routines. `SentFrames` counts the frames that reached the link.
- `commands.dfy`: the command templates.
- `exchange.dfy`: the exchange as a function of the session state, with one
  lemma per return path. It also holds the SELECT of the application.
- `authentication.dfy`: the handshake as a function of the session state, and
  its lemmas.
- `session.dfy`: the class holding the active context and the link history.
  Its imperative methods are proved to leave exactly the state the
  specification functions give.

Where the code departs from the intended protocol behaviour, the model follows
the code:

- Command data over 228 bytes is refused with return code 20, not treated as a
  precondition.
- When GET CHALLENGE fails, the handshake itself neither clears nor commits a
  context: it returns false and the active context is whatever the GET
  CHALLENGE exchange left. That exchange may already have changed it: the
  wrapper updates it, and a bare status word answering a MACed or Encrypted
  request clears it. The handshake clears the context itself only for failures
  after a successful challenge.
- The verdict of the response unwrapper is not checked. Whatever context,
  plaintext and status word it produces are taken as they are.
- A card error status makes the exchange return 5 only while APDU logging is
  on. With logging off the same exchange returns 0 (`LoggingOnlyChangesCode`,
  `QuietCodeIgnoresStatus`). This reaches the handshake too: with logging off,
  a 22-byte challenge carrying a non-9000 status is accepted.
- The secure-messaging wrapper updates the active context before the byte
  encoder runs. So after an encoding failure or a link error, the active
  context is the wrapper's output, not the context from before the call. The
  response path does not touch it further.

## Model

| member | source | states |
|---|---|---|
| `Iso7816.StatusWord` | client/src/cipurse/cipursecore.c:79 | The status word built from two response bytes has those bytes as its SW1 and SW2. |
| `Iso7816.StatusWordOfBytes` | client/src/cipurse/cipursecore.c:93-96 | Splitting a status word into SW1 (`sw >> 8`) and SW2 (`sw & 0xff`) and joining them again gives the same word. |
| `SecureExchange.ExpectedLength` | client/src/cipurse/cipursecore.c:47-50 | The expected length is 0 exactly when no Le field is asked for. With Le asked for, it is 0x100 when Le is 0 and Le itself otherwise. |
| `SecureExchange.StatusCode` | client/src/cipurse/cipursecore.c:91-102 | Once a status word is in hand, the code is 0 or 5. It is 5 exactly when logging is on, the status is not 9000 and SW1 is not 61. |
| `SecureExchange.Exchange` | client/src/cipurse/cipursecore.c:27-103 | An exchange keeps the buffer's length and reports at most the buffer's room. It only appends to the link history, at most two events. |
| `SecureExchange.OversizeRejected` | client/src/cipurse/cipursecore.c:37-44 | When Lc > 228 the code is 20, with no output, status 0 and the context and buffer unchanged. The only event is the field drop, if one was asked for. No frame reaches the link. |
| `SecureExchange.FramesOfExchange` | client/src/cipurse/cipursecore.c:42-65 | An exchange sends exactly one frame when the data fits and the encoder succeeds, and no frame otherwise. The frame sent is the encoder's output for the wrapped command. |
| `SecureExchange.EncodingFailure` | client/src/cipurse/cipursecore.c:52-57 | When the encoder fails the code is 201. Nothing is sent and the buffer is untouched. The context is what the wrapper left. |
| `SecureExchange.TransportErrorPassedThrough` | client/src/cipurse/cipursecore.c:62-65 | A non-zero link result is returned as it is, with status 0. The response path leaves the context as the wrapper left it. |
| `SecureExchange.ShortResponse` | client/src/cipurse/cipursecore.c:70-72 | A response under 2 bytes gives code 200 and status 0, with the context as the wrapper left it. |
| `SecureExchange.BareStatusWord` | client/src/cipurse/cipursecore.c:74-89 | A 2-byte response gives output length 0 and status `b0*0x100+b1`. The context is cleared when the request level is MACed or Encrypted, whatever the status, and kept otherwise. The code follows the status. |
| `SecureExchange.DecodedResponse` | client/src/cipurse/cipursecore.c:80-89 | A longer response reports the plaintext's length, which is at most the raw length. The buffer starts with the plaintext and keeps its bytes beyond the raw response. Status and context are the unwrapper's. |
| `SecureExchange.LoggingOnlyChangesCode` | client/src/cipurse/cipursecore.c:91-102 | Turning APDU logging on or off changes only the return code. It can only turn 0 into 5, and only for a status other than 9000 and 61XX. |
| `SecureExchange.QuietCodeIgnoresStatus` | client/src/cipurse/cipursecore.c:91-102 | With logging off, the code is 0 exactly when a frame was sent and the link returned at least 2 bytes without error, whatever the status word. |
| `SecureExchange.ReturnCodes` | client/src/cipurse/cipursecore.c:27-103 | Every return code is 0, 5, 20, 200 or 201, or else it is the link's own error for a frame that was sent. |
| `SecureExchange.TemplatesFitLimit` | client/src/cipurse/cipursecore.c:116-136 | No template exceeds the 228-byte data limit. This includes MUTUAL AUTHENTICATE with its 38-byte block. |
| `SecureExchange.Select` | client/src/cipurse/cipursecore.c:109-114 | SELECT leaves the active context cleared, whatever the card answers. It records one select of the name "AD F1" with the caller's field flags, and keeps the buffer's length. |
| `SecureExchange.SelectSendsNoFrame` | client/src/cipurse/cipursecore.c:109-114 | SELECT goes through the application selector, not the secure-channel link. |
| `Commands.ChallengeCommand` | client/src/cipurse/cipursecore.c:116-118 | GET CHALLENGE is `00 84 00 00` with no data, and asks for Le = 0x16. |
| `Commands.MutualAuthenticateCommand` | client/src/cipurse/cipursecore.c:120-122 | MUTUAL AUTHENTICATE is `00 82 00 keyIndex` with the parameter block as data and Lc = its length, and asks for Le = 0x10. |
| `Commands.SelectFileCommand` | client/src/cipurse/cipursecore.c:124-127 | SELECT FILE is `00 A4 00 00` with Lc = 2 and 2 data bytes whose big-endian value is the file ID. It asks for Le with value 0. |
| `Commands.ReadBinaryCommand` | client/src/cipurse/cipursecore.c:134-136 | READ BINARY is `00 B0` with P1 <= 0x7F and P1*0x100+P2 equal to the offset modulo 0x8000. It has no data and asks for Le with value 0. |
| `Commands.ReadFileAttributes` | client/src/cipurse/cipursecore.c:129-132 | The file-attributes stub always returns a non-zero (failure) code. |
| `Authentication.Authenticate` | client/src/cipurse/cipursecore.c:138-192 | On success both levels of the active context are MACed. On failure the context is either cleared or as the challenge exchange left it. The link history only grows. |
| `Authentication.AuthenticateSucceedsIff` | client/src/cipurse/cipursecore.c:143-184 | Three conditions must all hold: the challenge returned code 0 with exactly 22 bytes; mutual authenticate returned code 0, status 9000 and exactly 16 bytes; and the cryptogram check passed. Success holds exactly when they do. The committed context is then the local one with both levels MACed. |
| `Authentication.ChallengeFailureKeepsContext` | client/src/cipurse/cipursecore.c:147-153 | After a failed challenge the result is false. The context and history are as the challenge exchange left them, and at most one frame was sent. |
| `Authentication.LateFailureClears` | client/src/cipurse/cipursecore.c:161-191 | Once the challenge has succeeded, every failure (of mutual authenticate or of the cryptogram check) leaves the active context cleared. |
| `Authentication.AuthenticateFrames` | client/src/cipurse/cipursecore.c:147-161 | A handshake sends at most two frames, and exactly two when it succeeds. |
| `Session.CipurseSession.constructor` | client/src/cipurse/cipursecore.c:24-25 | A new session starts with a zeroed active context and an empty link history. |
| `Session.CipurseSession.ExchangeEx` | client/src/cipurse/cipursecore.c:27-103 | Code, length, status, new context, link history and buffer contents are exactly those that `SecureExchange.Exchange` gives for the old state. |
| `Session.CipurseSession.Select` | client/src/cipurse/cipursecore.c:109-114 | The outcome and the new state are those of `SecureExchange.Select`, so the active context ends cleared. |
| `Session.CipurseSession.Challenge` | client/src/cipurse/cipursecore.c:116-118 | The outcome is that of the exchange of the GET CHALLENGE template, without a field drop and leaving the field on. |
| `Session.CipurseSession.MutualAuthenticate` | client/src/cipurse/cipursecore.c:120-122 | The outcome is that of the exchange of the MUTUAL AUTHENTICATE template. |
| `Session.CipurseSession.SelectFile` | client/src/cipurse/cipursecore.c:124-127 | The outcome is that of the exchange of the SELECT FILE template. |
| `Session.CipurseSession.ReadBinary` | client/src/cipurse/cipursecore.c:134-136 | The outcome is that of the exchange of the READ BINARY template. |
| `Session.CipurseSession.ChannelAuthenticate` | client/src/cipurse/cipursecore.c:138-192 | The result, new active context and link history are those of `Authentication.Authenticate`, computed with a zeroed 260-byte buffer. |
| `Session.CipurseSession.SetActiveSecurityLevels` | client/src/cipurse/cipursecore.c:194-196 | Sets both levels of the active context and keeps the rest of it and the link history. |

## Left out

- The cryptographic primitives `CipurseCSetKey`, `CipurseCSetRandomFromPICC`,
  `CipurseCAuthenticateHost`, `CipurseCCheckCT`, `CipurseCAPDUReqEncode` and
  `CipurseCAPDURespDecode` are not defined. They are arbitrary functions of the
  context and their inputs, so no property depends on them.
- The rest of the crypto interface is assumed, not taken from source. Its
  source is not part of this model. Clearing the context gives `Cleared`: zero
  levels and no secrets. Setting levels replaces both levels and keeps the
  rest. The cryptogram check does not change the context.
- `APDUEncodeS` is an arbitrary function that may fail. The byte layout of
  frames is not modelled.
- `ExchangeAPDU14a` and `EMVSelect` are oracles over the link history. They
  are assumed never to write more than the caller's buffer holds.
- The response unwrapper is assumed to produce no more plaintext than it was
  given, so the `memcpy` stays within the buffer.
- The link's reply is written into the buffer even when it reports an error.
  What the real link leaves there on an error is not modelled.
- `DropField` is recorded as a link event. The 50 ms `msleep` after it is not
  modelled.
- `PrintAndLogEx`, `sprint_hex`, `GetAPDUCodeDescription` and the `verbose`
  flag of `CIPURSEChannelAuthenticate` only produce diagnostics, so they are
  dropped. `GetAPDULogging()` is kept as the boolean `Env.logging`, because it
  changes the return code.
- `CIPURSEPrintInfoFile` is presentation only. The commented-out
  `CIPURSEExchange` is dead code.
- `MaxResultLen` is taken to be the length of the caller's buffer array.
  `APDU_RES_LEN` (the handshake's buffer) is taken as 260, because the header
  that defines it is not part of this model.
- The `NULL` checks on the `sw` and `ResultLen` out-parameters are not
  modelled, because every caller passes both.
- The key material the handshake leaves behind on the C stack in `cpc` is not
  modelled.
- `CipurseCSetRandomFromPICC` and `CipurseCCheckCT` receive the whole 260-byte
  handshake buffer in the C code. The model hands them only its first 22 and
  16 bytes respectively, so it assumes they read no further than that.
- `CipurseCAuthenticateHost` draws the host randoms. The model folds that draw
  into the function `authenticateHost`, so the randoms are a deterministic
  function of the context.
