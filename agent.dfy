/**
 * The client (Client.py): the payload ciphers chosen per message, the
 * records it sends, its receiving thread's demultiplexer, and the ACK slot
 * through which that thread reports server replies to the `Client` object.
 */
module Agent {
  import opened Wrappers
  import opened Text
  import opened Cipher
  import opened Codec

  /** The value of the ACK slot: False, True, a key received from the server,
      or None while a key request waits. */
  datatype AckValue = AckFalse | AckTrue | AckBytes(bytes: string) | AckNone

  /** Python's truth value of the slot. */
  predicate Truthy(a: AckValue)
  {
    a.AckTrue? || (a.AckBytes? && a.bytes != [])
  }

  // ---------------------------------------------------------------------
  // Payload ciphers
  // ---------------------------------------------------------------------

  /** The three payload fields of a chat record. */
  datatype Payload = Payload(iv: string, encKey: string, encMessage: string)

  /** The payload `sendMessageTo` builds for cipher type `encType`:
      0 plaintext, 1 ROT13, 3 AES under `encryptionKey` with that key sent
      RSA-encrypted under the receiver's `publicKey`, 4 RSA under
      `encryptionKey`, 5 Fernet under `encryptionKey` with the key sent
      RSA-encrypted.  `aesIv` is the IV `AES_encrypt` draws.  None where the
      source raises: type 2 calls `vig_encrypt`, which is defined nowhere;
      any other type leaves the ciphertext unbound; and AES or RSA
      encryption can fail. */
  function EncryptPayload(crypto: Crypto, message: string, encType: nat, encryptionKey: string,
                          publicKey: string, aesIv: string): (r: Option<Payload>)
    ensures r.Some? ==> encType == 0 || encType == 1 || encType == 3 || encType == 4 || encType == 5
    ensures encType == 0 || encType == 1 ==> r.Some?
    ensures encType == 3 ==>
      (r.Some? <==> AesEncrypt(crypto, message, encryptionKey, aesIv).Some?
                    && crypto.rsaEncrypt(publicKey, encryptionKey).Some?)
    ensures encType == 4 ==> (r.Some? <==> crypto.rsaEncrypt(encryptionKey, message).Some?)
    ensures encType == 5 ==> (r.Some? <==> crypto.rsaEncrypt(publicKey, encryptionKey).Some?)
    ensures r.Some? && encType != 3 ==> r.value.iv == "0"
    ensures r.Some? && (encType == 0 || encType == 1 || encType == 4) ==> r.value.encKey == "0"
  {
    if encType == 0 then Some(Payload("0", "0", message))
    else if encType == 1 then Some(Payload("0", "0", Rot13(message)))
    else if encType == 3 then
      match AesEncrypt(crypto, message, encryptionKey, aesIv)
      case None => None
      case Some(ciphertext) =>
        match crypto.rsaEncrypt(publicKey, encryptionKey)
        case None => None
        case Some(encKey) => Some(Payload(aesIv, encKey, ciphertext))
    else if encType == 4 then
      match crypto.rsaEncrypt(encryptionKey, message)
      case None => None
      case Some(ciphertext) => Some(Payload("0", "0", ciphertext))
    else if encType == 5 then
      match crypto.rsaEncrypt(publicKey, encryptionKey)
      case None => None
      case Some(encKey) => Some(Payload("0", encKey, crypto.fernetEncrypt(encryptionKey, message)))
    else None
  }

  /** `stripEnc`: undo the payload cipher named by the type field, with the
      client's private key `privKey`.  None where the source raises
      (`vig_decrypt` is defined nowhere; an unknown type leaves `message`
      unbound; a decryption fails). */
  function StripEnc(crypto: Crypto, privKey: string, encryptionType: string,
                    iv: string, encKey: string, encMessage: string): Option<string>
  {
    if encryptionType == "0" then Some(encMessage)
    else if encryptionType == "1" then Some(Rot13(encMessage))
    else if encryptionType == "3" then
      match crypto.rsaDecrypt(privKey, encKey)
      case None => None
      case Some(key) => AesDecrypt(crypto, encMessage, iv, key)
    else if encryptionType == "4" then crypto.rsaDecrypt(privKey, encMessage)
    else if encryptionType == "5" then
      match crypto.rsaDecrypt(privKey, encKey)
      case None => None
      case Some(key) => crypto.fernetDecrypt(key, encMessage)
    else None
  }

  /** Whatever cipher the sender picks, the receiver's `stripEnc` on the type
      code the chat record carries gives the message back, provided the
      primitives invert and the RSA key the sender used belongs to the
      receiver's private key. */
  lemma PayloadRoundTrip(crypto: Crypto, message: string, encType: nat, encryptionKey: string,
                         publicKey: string, privKey: string, aesIv: string)
    requires EncryptPayload(crypto, message, encType, encryptionKey, publicKey, aesIv).Some?
    requires CbcInverse(crypto) && FernetInverse(crypto)
    requires encType == 4 ==> RsaKeyPair(crypto, encryptionKey, privKey)
    requires encType != 4 ==> RsaKeyPair(crypto, publicKey, privKey)
    ensures var p := EncryptPayload(crypto, message, encType, encryptionKey, publicKey, aesIv).value;
      StripEnc(crypto, privKey, NatToString(encType), p.iv, p.encKey, p.encMessage) == Some(message)
  {
    var p := EncryptPayload(crypto, message, encType, encryptionKey, publicKey, aesIv).value;
    var code := NatToString(encType);
    assert code == [(encType + '0' as int) as char];
    if encType == 1 {
      Rot13Involution(message);
    } else if encType == 3 {
      assert crypto.rsaDecrypt(privKey, p.encKey) == Some(encryptionKey);
      AesRoundTrip(crypto, message, encryptionKey, aesIv);
    } else if encType == 4 {
      assert crypto.rsaDecrypt(privKey, p.encMessage) == Some(message);
    } else if encType == 5 {
      assert crypto.rsaDecrypt(privKey, p.encKey) == Some(encryptionKey);
    }
  }

  // ---------------------------------------------------------------------
  // Outgoing packets
  // ---------------------------------------------------------------------

  /** The packet `sendMessageTo` sends; None where it raises. */
  function ChatPacket(crypto: Crypto, message: string, destination: string, uName: string,
                      encType: nat, encryptionKey: string, publicKey: string,
                      sessionKey: string, aesIv: string, sessionIv: string): Option<string>
  {
    match EncryptPayload(crypto, message, encType, encryptionKey, publicKey, aesIv)
    case None => None
    case Some(p) => Seal(crypto, ChatRecord(destination, uName, encType, p.iv, p.encKey, p.encMessage), sessionKey, sessionIv)
  }

  // ---------------------------------------------------------------------
  // The receiving thread
  // ---------------------------------------------------------------------

  /** A message handed to the UI callback: `(ip, message, senderName)`. */
  datatype Delivery = Delivery(ip: string, message: string, senderName: string)

  /** What the receiving thread shares with the `Client`: the ACK slot, the
      messages delivered so far, and whether the loop still runs. */
  datatype Receiver = Receiver(ack: AckValue, delivered: seq<Delivery>, running: bool)

  /** One pass of `receiving_thread`; `None` stands for a `recv` timeout. */
  function ReceiveStep(crypto: Crypto, sessionKey: string, privKey: string,
                       r: Receiver, packet: Option<string>): Receiver
  {
    if !r.running || packet.None? then r
    else match UnPack(crypto, packet.value, sessionKey)
      // AES_decrypt raised: nothing catches it and the thread ends
      case None => r.(running := false)
      case Some(fields) =>
        if |fields| != 6 then
          var ack := if fields[0] == "50" then AckTrue else r.ack;
          if fields[0] != "20" then r.(ack := ack)
          // a bare `20` has no `fields[1]`: the thread ends
          else if |fields| < 2 then r.(ack := ack, running := false)
          else r.(ack := AckBytes(fields[1]))
        else match StripEnc(crypto, privKey, fields[2], fields[3], fields[4], fields[5])
          case None => r.(running := false)
          case Some(m) => r.(delivered := r.delivered + [Delivery(fields[1], m, fields[0])])
  }

  /** The receiving thread over a run of `recv` results. */
  function ReceiveAll(crypto: Crypto, sessionKey: string, privKey: string,
                      r: Receiver, packets: seq<Option<string>>): Receiver
  {
    if packets == [] then r
    else ReceiveStep(crypto, sessionKey, privKey,
                     ReceiveAll(crypto, sessionKey, privKey, r, packets[..|packets| - 1]),
                     packets[|packets| - 1])
  }

  /** A record of other than 6 fields delivers nothing: `50` sets the slot to
      True, `20` to the key it carries, and anything else leaves it. */
  lemma DemuxAck(crypto: Crypto, sessionKey: string, privKey: string, r: Receiver, packet: string)
    requires r.running
    requires UnPack(crypto, packet, sessionKey).Some?
    requires |UnPack(crypto, packet, sessionKey).value| != 6
    ensures var fields := UnPack(crypto, packet, sessionKey).value;
      var after := ReceiveStep(crypto, sessionKey, privKey, r, Some(packet));
      && after.delivered == r.delivered
      && (fields[0] == "50" ==> after.ack == AckTrue && after.running)
      && (fields[0] == "20" && |fields| >= 2 ==> after.ack == AckBytes(fields[1]) && after.running)
      && (fields[0] != "50" && fields[0] != "20" ==> after == r)
  {
  }

  /** A 6-field record is delivered as `(fields[1], the decrypted fields[5],
      fields[0])` and leaves the slot alone. */
  lemma DemuxDeliver(crypto: Crypto, sessionKey: string, privKey: string, r: Receiver, packet: string)
    requires r.running
    requires UnPack(crypto, packet, sessionKey).Some?
    requires |UnPack(crypto, packet, sessionKey).value| == 6
    ensures var f := UnPack(crypto, packet, sessionKey).value;
      var after := ReceiveStep(crypto, sessionKey, privKey, r, Some(packet));
      && after.ack == r.ack
      && match StripEnc(crypto, privKey, f[2], f[3], f[4], f[5])
         case Some(m) => after.running && after.delivered == r.delivered + [Delivery(f[1], m, f[0])]
         case None => !after.running && after.delivered == r.delivered
  {
  }

  /** The thread only ever appends to what it has delivered, and once it has
      stopped it stays stopped. */
  lemma {:induction false} ReceiveAllGrows(crypto: Crypto, sessionKey: string, privKey: string,
                                           r: Receiver, packets: seq<Option<string>>)
    ensures var after := ReceiveAll(crypto, sessionKey, privKey, r, packets);
      && r.delivered <= after.delivered
      && (!r.running ==> after == r)
    decreases |packets|
  {
    if packets != [] {
      ReceiveAllGrows(crypto, sessionKey, privKey, r, packets[..|packets| - 1]);
    }
  }

  /** A bare ACK `50` sets the slot to True. */
  lemma AckArrives(crypto: Crypto, sessionKey: string, privKey: string, r: Receiver)
    requires r.running
    ensures ReceiveStep(crypto, sessionKey, privKey, r, Some("50")) == r.(ack := AckTrue)
  {
    BareAckUnpacks(crypto, sessionKey);
  }

  /** An unsealed key reply sets the slot to the key. */
  lemma KeyArrives(crypto: Crypto, sessionKey: string, privKey: string, r: Receiver, pubkey: string)
    requires r.running && !Contains(pubkey, Crlf)
    ensures ReceiveStep(crypto, sessionKey, privKey, r, Some(KeyReply(pubkey))) == r.(ack := AckBytes(pubkey))
  {
    KeyReplyUnpacks(crypto, pubkey, sessionKey);
  }

  // ---------------------------------------------------------------------
  // The client object
  // ---------------------------------------------------------------------

  /** What `sendMessage`, `getPublicKey` and `createAccount` report: the slot's value, or that
      the call raised. */
  datatype CallStatus = Raised | Status(value: AckValue)

  /**
   * The `Client` object: whether `connectToServer` gave it a socket, the
   * session key, the user name of its profile, and the state it shares with
   * its receiving thread.  The time each call sleeps waiting for a reply is
   * given as the packets the thread receives meanwhile.
   */
  class Client {
    var connected: bool
    var sessionKey: string
    var userName: string
    var ack: AckValue
    var delivered: seq<Delivery>
    var running: bool

    function Shared(): Receiver
      reads this
    {
      Receiver(ack, delivered, running)
    }

    /** `Client(...)`: `connection` is the session key `connectToServer`
        established, or None when it failed. */
    constructor (connection: Option<string>, profileName: string)
      ensures connected == connection.Some? && running == connected
      ensures connected ==> sessionKey == connection.value
      ensures ack == AckFalse && delivered == [] && userName == profileName
    {
      connected := connection.Some?;
      sessionKey := if connection.Some? then connection.value else "";
      userName := profileName;
      ack := AckFalse;
      delivered := [];
      running := connection.Some?;
    }

    /** The receiving thread's loop over the packets `recv` returns. */
    method ReceivingThread(crypto: Crypto, privKey: string, packets: seq<Option<string>>)
      modifies this
      ensures Shared() == ReceiveAll(crypto, sessionKey, privKey, old(Shared()), packets)
      ensures connected == old(connected) && sessionKey == old(sessionKey) && userName == old(userName)
    {
      for i := 0 to |packets|
        invariant Shared() == ReceiveAll(crypto, sessionKey, privKey, old(Shared()), packets[..i])
        invariant connected == old(connected) && sessionKey == old(sessionKey) && userName == old(userName)
      {
        assert packets[..i + 1][..i] == packets[..i];
        if running && packets[i].Some? {
          var fields := UnPack(crypto, packets[i].value, sessionKey);
          if fields.None? {
            running := false;
          } else if |fields.value| != 6 {
            if fields.value[0] == "50" {
              ack := AckTrue;
            }
            if fields.value[0] == "20" {
              if |fields.value| < 2 {
                running := false;
              } else {
                ack := AckBytes(fields.value[1]);
              }
            }
          } else {
            var f := fields.value;
            var message := StripEnc(crypto, privKey, f[2], f[3], f[4], f[5]);
            if message.None? {
              running := false;
            } else {
              delivered := delivered + [Delivery(f[1], message.value, f[0])];
            }
          }
        }
      }
      assert packets[..|packets|] == packets;
    }

    /** `sendMessage`: no socket gives False; otherwise the chat packet is
        sent, replies arrive while it sleeps, it reports `sendSuccess and
        ACK`, and resets the slot to False. */
    method SendMessage(crypto: Crypto, privKey: string, message: string, ip: string, etype: nat,
                       eKey: string, publicKey: string, aesIv: string, sessionIv: string,
                       sendOk: bool, arrivals: seq<Option<string>>)
      returns (status: CallStatus, packet: Option<string>)
      modifies this
      ensures connected == old(connected) && sessionKey == old(sessionKey) && userName == old(userName)
      ensures !connected ==> status == Status(AckFalse) && packet == None && Shared() == old(Shared())
      ensures connected ==>
        packet == ChatPacket(crypto, message, ip, userName, etype, eKey, publicKey, sessionKey, aesIv, sessionIv)
      ensures connected && packet.None? ==> status == Raised && Shared() == old(Shared())
      ensures connected && packet.Some? ==>
        var after := ReceiveAll(crypto, sessionKey, privKey, old(Shared()), arrivals);
        && status == Status(if sendOk then after.ack else AckFalse)
        && Shared() == after.(ack := AckFalse)
    {
      if !connected {
        return Status(AckFalse), None;
      }
      packet := ChatPacket(crypto, message, ip, userName, etype, eKey, publicKey, sessionKey, aesIv, sessionIv);
      if packet.None? {
        return Raised, None;
      }
      ReceivingThread(crypto, privKey, arrivals);
      var recvAck := ack;
      status := Status(if sendOk then recvAck else AckFalse);
      ack := AckFalse;
    }

    /** `getPublicKey`: the key request is sent, the slot is set to None,
        replies arrive while it sleeps, the slot's value is returned and the
        slot reset to False.  Without a socket, or when sealing the request
        fails, the call raises before the slot is touched. */
    method GetPublicKey(crypto: Crypto, privKey: string, receiverName: string, receiverIP: string,
                        sessionIv: string, arrivals: seq<Option<string>>)
      returns (status: CallStatus, packet: Option<string>)
      modifies this
      ensures connected == old(connected) && sessionKey == old(sessionKey) && userName == old(userName)
      ensures !connected ==> status == Raised && packet == None && Shared() == old(Shared())
      ensures connected ==> packet == Seal(crypto, KeyRequestRecord(receiverName, receiverIP), sessionKey, sessionIv)
      ensures connected && packet.None? ==> status == Raised && Shared() == old(Shared())
      ensures connected && packet.Some? ==>
        var after := ReceiveAll(crypto, sessionKey, privKey, old(Shared()).(ack := AckNone), arrivals);
        && status == Status(after.ack)
        && Shared() == after.(ack := AckFalse)
    {
      if !connected {
        return Raised, None;
      }
      packet := Seal(crypto, KeyRequestRecord(receiverName, receiverIP), sessionKey, sessionIv);
      if packet.None? {
        return Raised, None;
      }
      ack := AckNone;
      ReceivingThread(crypto, privKey, arrivals);
      var pubkeybytes := ack;
      ack := AckFalse;
      status := Status(pubkeybytes);
    }

    /** `createAccount`: no socket gives None; otherwise the account record
        is sent, replies arrive while it sleeps, the status is `sendSuccess
        and ACK`, the slot is reset, and the profile takes the new name only
        when the status is true.  When sealing the record fails the call
        raises.  `hashedPass` is the password's hash. */
    method CreateAccount(crypto: Crypto, privKey: string, username: string, hashedPass: string,
                         sequence: nat, sessionIv: string, sendOk: bool, arrivals: seq<Option<string>>)
      returns (status: CallStatus, packet: Option<string>)
      modifies this
      ensures connected == old(connected) && sessionKey == old(sessionKey)
      ensures !connected ==> status == Status(AckNone) && packet == None && Shared() == old(Shared())
                             && userName == old(userName)
      ensures connected ==> packet == Seal(crypto, AccountRecord(username, hashedPass, sequence), sessionKey, sessionIv)
      ensures connected && packet.None? ==> status == Raised && Shared() == old(Shared()) && userName == old(userName)
      ensures connected && packet.Some? ==>
        var after := ReceiveAll(crypto, sessionKey, privKey, old(Shared()), arrivals);
        && status == Status(if sendOk then after.ack else AckFalse)
        && Shared() == after.(ack := AckFalse)
        && userName == (if Truthy(status.value) then username else old(userName))
    {
      if !connected {
        return Status(AckNone), None;
      }
      packet := Seal(crypto, AccountRecord(username, hashedPass, sequence), sessionKey, sessionIv);
      if packet.None? {
        return Raised, None;
      }
      ReceivingThread(crypto, privKey, arrivals);
      var recvAck := ack;
      var result := if sendOk then recvAck else AckFalse;
      ack := AckFalse;
      if Truthy(result) {
        userName := username;
      }
      status := Status(result);
    }

    /** `disconnect`: stop the receiving thread, then send the disconnect
        record when there is a socket; sealing it can raise. */
    method Disconnect(crypto: Crypto, sessionIv: string) returns (raised: bool, packet: Option<string>)
      modifies this
      ensures !running && ack == old(ack) && delivered == old(delivered)
      ensures connected == old(connected) && sessionKey == old(sessionKey) && userName == old(userName)
      ensures packet == if connected then Seal(crypto, DisconnectRecord, sessionKey, sessionIv) else None
      ensures raised <==> connected && packet.None?
      ensures !raised
    {
      running := false;
      packet := None;
      raised := false;
      if connected {
        AsciiEncrypts(crypto, DisconnectRecord, sessionKey, sessionIv);
        packet := Seal(crypto, DisconnectRecord, sessionKey, sessionIv);
        raised := packet.None?;
      }
    }
  }
}
