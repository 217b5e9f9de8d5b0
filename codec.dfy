/**
 * The wire format.  A record is a list of fields joined by CR LF whose first
 * field is a command code; after the handshake every record travels inside a
 * transport envelope `IV CR LF AES(sessionKey, IV, record)`.
 */
module Codec {
  import opened Wrappers
  import opened Text
  import opened Cipher

  /** A packet handed to a socket.  `Sealed(key, record)` stands for the
      envelope of `record` under session key `key` with a fresh IV; `Raw`
      is sent as it is. */
  datatype Packet = Raw(data: string) | Sealed(key: string, record: string)

  /** No field of the list contains the separator. */
  predicate SepFree(fields: seq<string>)
  {
    forall i | 0 <= i < |fields| :: !Contains(fields[i], Crlf)
  }

  // ============================ record builders ============================

  /** `sendMessageTo`'s chat record: code 200, destination IP, own user
      name, cipher-type code, payload IV, encrypted payload key, ciphertext. */
  function ChatRecord(destination: string, uName: string, encType: nat,
                      iv: string, encKey: string, encMessage: string): string
  {
    "200" + Crlf + destination + Crlf + uName + Crlf + NatToString(encType)
      + Crlf + iv + Crlf + encKey + Crlf + encMessage
  }

  /** `createUserAccount`'s record: code 10, user name, password hash,
      sequence number and a placeholder. */
  function AccountRecord(username: string, hashedPass: string, sequence: nat): string
  {
    "10" + Crlf + username + Crlf + hashedPass + Crlf + NatToString(sequence) + Crlf + "0"
  }

  /** `getPublicKeyFromServer`'s record: code 20, name, IP, two placeholders. */
  function KeyRequestRecord(receiverName: string, receiverIP: string): string
  {
    "20" + Crlf + receiverName + Crlf + receiverIP + Crlf + "0" + Crlf + "0"
  }

  /** `disconnectServer`'s record: five `0` fields. */
  const DisconnectRecord: string := "0" + Crlf + "0" + Crlf + "0" + Crlf + "0" + Crlf + "0"

  /** The server's reply to a key request, sent without an envelope. */
  function KeyReply(pubkey: string): string
  {
    "20" + Crlf + pubkey + Crlf + "0"
  }

  /** The record the relay sends on to the destination: sender name, the
      sender's registered IP, cipher type, payload IV, encrypted key, message. */
  function ForwardRecord(name: string, senderIP: string, eType: string,
                         iv: string, encKey: string, message: string): string
  {
    name + Crlf + senderIP + Crlf + eType + Crlf + iv + Crlf + encKey + Crlf + message
  }

  /** The transport envelope `iv CR LF ciphertext`. */
  function Envelope(iv: string, ciphertext: string): string
  {
    iv + Crlf + ciphertext
  }

  // ======================= the builders split back ========================

  lemma SplitFields(fields: seq<string>)
    requires |fields| >= 1 && SepFree(fields)
    ensures Split(Join(fields, Crlf), Crlf) == fields
  {
    CrlfBorderFree();
    forall f | f in fields ensures !Contains(f, Crlf) {
      var i :| 0 <= i < |fields| && fields[i] == f;
    }
    SplitJoin(fields, Crlf);
  }

  lemma JoinCons(x: string, rest: seq<string>)
    requires |rest| >= 1
    ensures Join([x] + rest, Crlf) == x + Crlf + Join(rest, Crlf)
  {
    assert ([x] + rest)[1..] == rest;
  }

  lemma Join3(a: string, b: string, c: string)
    ensures Join([a, b, c], Crlf) == a + Crlf + b + Crlf + c
  {
    JoinCons(b, [c]);
    JoinCons(a, [b, c]);
    assert [a] + [b, c] == [a, b, c];
    assert [b] + [c] == [b, c];
  }

  lemma Join4(a: string, b: string, c: string, d: string)
    ensures Join([a, b, c, d], Crlf) == a + Crlf + b + Crlf + c + Crlf + d
  {
    Join3(b, c, d);
    JoinCons(a, [b, c, d]);
    assert [a] + [b, c, d] == [a, b, c, d];
  }

  lemma Join5(a: string, b: string, c: string, d: string, e: string)
    ensures Join([a, b, c, d, e], Crlf) == a + Crlf + b + Crlf + c + Crlf + d + Crlf + e
  {
    Join4(b, c, d, e);
    JoinCons(a, [b, c, d, e]);
    assert [a] + [b, c, d, e] == [a, b, c, d, e];
  }

  lemma Join6(a: string, b: string, c: string, d: string, e: string, f: string)
    ensures Join([a, b, c, d, e, f], Crlf) == a + Crlf + b + Crlf + c + Crlf + d + Crlf + e + Crlf + f
  {
    Join5(b, c, d, e, f);
    JoinCons(a, [b, c, d, e, f]);
    assert [a] + [b, c, d, e, f] == [a, b, c, d, e, f];
  }

  lemma Join7(a: string, b: string, c: string, d: string, e: string, f: string, g: string)
    ensures Join([a, b, c, d, e, f, g], Crlf) == a + Crlf + b + Crlf + c + Crlf + d + Crlf + e + Crlf + f + Crlf + g
  {
    Join6(b, c, d, e, f, g);
    JoinCons(a, [b, c, d, e, f, g]);
    assert [a] + [b, c, d, e, f, g] == [a, b, c, d, e, f, g];
  }

  lemma LiteralsSepFree()
    ensures !Contains("0", Crlf) && !Contains("10", Crlf) && !Contains("20", Crlf)
    ensures !Contains("200", Crlf)
  {
    DecimalSepFree("0");
    DecimalSepFree("10");
    DecimalSepFree("20");
    DecimalSepFree("200");
  }

  /** A chat record has the seven fields of a code-200 message when none of
      its variable fields contains the separator. */
  lemma ChatRecordFields(destination: string, uName: string, encType: nat,
                         iv: string, encKey: string, encMessage: string)
    requires SepFree([destination, uName, iv, encKey, encMessage])
    ensures Split(ChatRecord(destination, uName, encType, iv, encKey, encMessage), Crlf)
         == ["200", destination, uName, NatToString(encType), iv, encKey, encMessage]
  {
    var fields := ["200", destination, uName, NatToString(encType), iv, encKey, encMessage];
    LiteralsSepFree();
    DecimalSepFree(NatToString(encType));
    assert SepFree(fields) by {
      var vars := [destination, uName, iv, encKey, encMessage];
      assert !Contains(vars[0], Crlf) && !Contains(vars[1], Crlf) && !Contains(vars[2], Crlf);
      assert !Contains(vars[3], Crlf) && !Contains(vars[4], Crlf);
    }
    Join7("200", destination, uName, NatToString(encType), iv, encKey, encMessage);
    SplitFields(fields);
  }

  /** An account record has five fields: code 10, name, hash, sequence, 0. */
  lemma AccountRecordFields(username: string, hashedPass: string, sequence: nat)
    requires SepFree([username, hashedPass])
    ensures Split(AccountRecord(username, hashedPass, sequence), Crlf)
         == ["10", username, hashedPass, NatToString(sequence), "0"]
  {
    var fields := ["10", username, hashedPass, NatToString(sequence), "0"];
    LiteralsSepFree();
    DecimalSepFree(NatToString(sequence));
    assert !Contains([username, hashedPass][0], Crlf) && !Contains([username, hashedPass][1], Crlf);
    Join5("10", username, hashedPass, NatToString(sequence), "0");
    SplitFields(fields);
  }

  /** A key request has five fields: code 20, name, IP, 0, 0. */
  lemma KeyRequestRecordFields(receiverName: string, receiverIP: string)
    requires SepFree([receiverName, receiverIP])
    ensures Split(KeyRequestRecord(receiverName, receiverIP), Crlf)
         == ["20", receiverName, receiverIP, "0", "0"]
  {
    var fields := ["20", receiverName, receiverIP, "0", "0"];
    LiteralsSepFree();
    assert !Contains([receiverName, receiverIP][0], Crlf) && !Contains([receiverName, receiverIP][1], Crlf);
    Join5("20", receiverName, receiverIP, "0", "0");
    SplitFields(fields);
  }

  /** The disconnect notice has five fields, all `0`. */
  lemma DisconnectRecordFields()
    ensures Split(DisconnectRecord, Crlf) == ["0", "0", "0", "0", "0"]
  {
    LiteralsSepFree();
    Join5("0", "0", "0", "0", "0");
    SplitFields(["0", "0", "0", "0", "0"]);
  }

  /** The key reply has three fields when the key contains no separator. */
  lemma KeyReplyFields(pubkey: string)
    requires !Contains(pubkey, Crlf)
    ensures Split(KeyReply(pubkey), Crlf) == ["20", pubkey, "0"]
  {
    LiteralsSepFree();
    Join3("20", pubkey, "0");
    SplitFields(["20", pubkey, "0"]);
  }

  /** The forwarded record has six fields, in the order the client reads them. */
  lemma ForwardRecordFields(name: string, senderIP: string, eType: string,
                            iv: string, encKey: string, message: string)
    requires SepFree([name, senderIP, eType, iv, encKey, message])
    ensures Split(ForwardRecord(name, senderIP, eType, iv, encKey, message), Crlf)
         == [name, senderIP, eType, iv, encKey, message]
  {
    Join6(name, senderIP, eType, iv, encKey, message);
    SplitFields([name, senderIP, eType, iv, encKey, message]);
  }

  // =============================== decoding ===============================

  /** The client's `unPack`: a packet that does not split into exactly two
      fields is returned split as it is (this is how bare `50` ACKs and key
      replies arrive); otherwise it is an envelope, decrypted and split.
      `None` where `AES_decrypt` raises. */
  function UnPack(crypto: Crypto, packet: string, sessionKey: string): (r: Option<seq<string>>)
    ensures |Split(packet, Crlf)| != 2 ==> r == Some(Split(packet, Crlf))
    ensures r.Some? ==> |r.value| >= 1
  {
    var fields := Split(packet, Crlf);
    if |fields| != 2 then Some(fields)
    else match AesDecrypt(crypto, fields[1], fields[0], sessionKey)
      case None => None
      case Some(plaintext) => Some(Split(plaintext, Crlf))
  }

  /** What the server's `unpackMessage` makes of a packet. */
  datatype Unpacked =
    | Dropped                       // it returned None
    | DecryptRaised                 // AES_decrypt raised; nothing catches it
    | Fields(fields: seq<string>)   // a record of 5 or 7 fields

  /** The server's `unpackMessage`. */
  function UnpackMessage(crypto: Crypto, packet: string, sessionKey: string): (u: Unpacked)
    ensures |packet| == 0 ==> u == Dropped
    ensures |Split(packet, Crlf)| != 2 ==> u == Dropped
    ensures u.Fields? ==> |u.fields| == 5 || |u.fields| == 7
  {
    if |packet| == 0 then Dropped
    else
      var fields := Split(packet, Crlf);
      if |fields| != 2 then Dropped
      else match AesDecrypt(crypto, fields[1], fields[0], sessionKey)
        case None => DecryptRaised
        case Some(plaintext) =>
          var record := Split(plaintext, Crlf);
          if |record| != 5 && |record| != 7 then Dropped else Fields(record)
  }

  /** Every field `unpackMessage` returns is free of the separator. */
  lemma UnpackedSepFree(crypto: Crypto, packet: string, sessionKey: string)
    ensures UnpackMessage(crypto, packet, sessionKey).Fields? ==>
              SepFree(UnpackMessage(crypto, packet, sessionKey).fields)
  {
    if |packet| > 0 && |Split(packet, Crlf)| == 2 {
      var fields := Split(packet, Crlf);
      var p := AesDecrypt(crypto, fields[1], fields[0], sessionKey);
      if p.Some? {
        SplitFieldsSepFree(p.value, Crlf);
        var record := Split(p.value, Crlf);
        assert forall i | 0 <= i < |record| :: record[i] in record;
      }
    }
  }

  /** An envelope whose IV and ciphertext hold no separator splits into
      exactly those two fields. */
  lemma EnvelopeFields(iv: string, ciphertext: string)
    requires !Contains(iv, Crlf) && !Contains(ciphertext, Crlf)
    ensures Split(Envelope(iv, ciphertext), Crlf) == [iv, ciphertext]
  {
    CrlfBorderFree();
    SplitAfterField(iv, Crlf, ciphertext);
    SplitSepFree(ciphertext, Crlf);
  }

  /** The packet that carries `record` sealed under `sessionKey` with the
      random IV `iv`: `iv CR LF AES_encrypt(record)`.  None where
      `AES_encrypt` raises. */
  function Seal(crypto: Crypto, record: string, sessionKey: string, iv: string): Option<string>
  {
    match AesEncrypt(crypto, record, sessionKey, iv)
    case None => None
    case Some(ciphertext) => Some(Envelope(iv, ciphertext))
  }

  /** Sealing succeeds, and neither the random IV nor the ciphertext happens
      to contain the separator. */
  predicate CleanSeal(crypto: Crypto, record: string, sessionKey: string, iv: string)
  {
    && AesEncrypt(crypto, record, sessionKey, iv).Some?
    && !Contains(iv, Crlf)
    && !Contains(AesEncrypt(crypto, record, sessionKey, iv).value, Crlf)
  }

  /** The client's side of the transport: a record sealed under the session
      key comes out of `unPack` as its fields, whatever their number. */
  lemma SealedUnPack(crypto: Crypto, record: string, sessionKey: string, iv: string)
    requires CbcInverse(crypto) && CleanSeal(crypto, record, sessionKey, iv)
    ensures Seal(crypto, record, sessionKey, iv).Some?
    ensures UnPack(crypto, Seal(crypto, record, sessionKey, iv).value, sessionKey) == Some(Split(record, Crlf))
  {
    EnvelopeFields(iv, AesEncrypt(crypto, record, sessionKey, iv).value);
    AesRoundTrip(crypto, record, sessionKey, iv);
  }

  /** The server's side of the transport: a sealed record of 5 or 7 fields
      comes out of `unpackMessage` as its fields. */
  lemma EnvelopeRoundTrip(crypto: Crypto, record: string, sessionKey: string, iv: string)
    requires CbcInverse(crypto) && CleanSeal(crypto, record, sessionKey, iv)
    requires |Split(record, Crlf)| == 5 || |Split(record, Crlf)| == 7
    ensures Seal(crypto, record, sessionKey, iv).Some?
    ensures UnpackMessage(crypto, Seal(crypto, record, sessionKey, iv).value, sessionKey) == Fields(Split(record, Crlf))
  {
    EnvelopeFields(iv, AesEncrypt(crypto, record, sessionKey, iv).value);
    AesRoundTrip(crypto, record, sessionKey, iv);
  }

  /** A ciphertext that contains the separator breaks the envelope, however
      it would decrypt: the server drops the packet, and the client takes
      the pieces, three or more, for a record of its own. */
  lemma EnvelopeBrokenBySeparator(crypto: Crypto, iv: string, ciphertext: string, sessionKey: string)
    requires !Contains(iv, Crlf) && Contains(ciphertext, Crlf)
    ensures UnpackMessage(crypto, Envelope(iv, ciphertext), sessionKey) == Dropped
    ensures var r := UnPack(crypto, Envelope(iv, ciphertext), sessionKey);
      r == Some(Split(Envelope(iv, ciphertext), Crlf)) && |r.value| >= 3
  {
    CrlfBorderFree();
    SplitAfterField(iv, Crlf, ciphertext);
    SeparatorSplits(ciphertext, Crlf);
  }

  /** A bare ACK is read by the client as the one-field record `50`. */
  lemma BareAckUnpacks(crypto: Crypto, sessionKey: string)
    ensures UnPack(crypto, "50", sessionKey) == Some(["50"])
    ensures UnPack(crypto, "55", sessionKey) == Some(["55"])
  {
    LiteralsSepFree();
    DecimalSepFree("50");
    DecimalSepFree("55");
    SplitSepFree("50", Crlf);
    SplitSepFree("55", Crlf);
  }

  /** An unsealed key reply reaches the client as its three fields. */
  lemma KeyReplyUnpacks(crypto: Crypto, pubkey: string, sessionKey: string)
    requires !Contains(pubkey, Crlf)
    ensures UnPack(crypto, KeyReply(pubkey), sessionKey) == Some(["20", pubkey, "0"])
  {
    KeyReplyFields(pubkey);
  }
}
