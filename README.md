# Secure messenger: a Dafny model of its core

The system is a small end-to-end chat application. A relay server accepts client connections and runs an RSA handshake with each. The handshake gives every client a session key. From then on each packet between a client and the server is an AES-CBC envelope `iv CRLF ciphertext`, and the plaintext inside is a CRLF-separated record. The server holds a table of user accounts: name, IP, public key and password hash. It answers four kinds of record:

- account creation (code `10`);
- public-key lookup (code `20`);
- disconnect (code `0`);
- chat messages (code `200`), which it re-seals under each destination's session key and forwards.

A client seals the message text inside the chat record with one of several payload ciphers: plaintext, ROT13, AES, RSA or Fernet. A background thread on the client takes the server's ACKs and the forwarded messages apart. On the client side a local SQLite store keeps one table of chats and one message table per chat.

The model has one module per concern:

- `Wrappers` (`wrappers.dfy`): `Option`.
- `Text` (`text.dfy`):
  - splitting and joining on a separator, with Python's `bytes.split`/`join` semantics;
  - the round trips between the two.
- `Cipher` (`cipher.py`):
  - ROT13;
  - the custom AES padding;
  - AES encryption over an abstract block cipher.
  RSA, Fernet and the CBC transform are function values in a `Crypto` record. Lemmas that need them to be inverse take that as a hypothesis (`CbcInverse`, `RsaKeyPair`, `FernetInverse`).
- `Codec`: every record the client and the server build, the envelope, and the two unpacking routines (`unPack` in Client.py, `unpackMessage` in server.py).
- `UserStore` (`UserDatabase.py`): the `users` table as a sequence of rows, and the `UserDataBase` class over it.
- `MessageStore` (`Database.py`): the `chats` table and the per-chat message tables as a `Store` value, the validators, and the `DataBase` class over it.
- `Relay` (`server.py`):
  - the client registry (the `Server` class);
  - the handshake;
  - one pass of `receivingThread`;
  - the forward loop.
- `Agent` (`Client.py`):
  - payload encryption and `stripEnc`;
  - one pass of `receiving_thread`;
  - the `Client` class. Its methods take the packets the receiving thread sees during their wait as a parameter.
- `Scenarios`: end-to-end lemmas that chain the client, the codec and the relay.

Sockets and randomness are parameters:

- what a `recv` returns is an `Inbound` or `Option<string>` value;
- whether a `send` succeeded is a `bool`;
- the IVs and sequence numbers are arguments.

An exception the source does not catch is modelled as its effect:

- the server's receiving loop ends (`ended`);
- the client's receiving thread stops (`running := false`);
- a call returns `Raised`;
- a database step returns `NoTable`.

Python's integers are unbounded, and so are the model's.

Several behaviours follow the code rather than its comments:

- If an envelope fails to decrypt, the exception escapes `unpackMessage`. That ends the server's loop for the client without removing it from the registry.
- A 5-field record whose code is not `0`, `10` or `20` fails to index `fields[5]` and also ends the loop.
- The client cannot send encryption type 2 or an unknown type: `vig_encrypt` is undefined and `encMessage` is then unbound. `Agent.EncryptPayload` returns `None` for those.
- `get_messages` with `n <= 0` returns every row (`n == 0`) or drops the first `-n` rows (`n < 0`), as Python's negative slices do.

## Model

| member | source | states |
|---|---|---|
| Text.Split | server.py:43 | Splitting always yields at least one field, and the first field is a prefix of the input. |
| Text.JoinSplit | server.py:113 | Joining the fields of a split with the same separator gives back the original bytes. |
| Text.SplitJoin | Client.py:397 | A record joined from separator-free fields (separator without self-overlap) splits back into exactly those fields. |
| Text.SplitFieldsSepFree | server.py:55 | No field produced by a split contains the separator. |
| Text.SplitSepFree | Client.py:357-358 | A string without the separator splits into itself alone. |
| Text.SplitAfterField | server.py:55 | Splitting `f + sep + rest` yields `f` followed by the fields of `rest` when `f` is separator-free. |
| Text.SeparatorSplits | server.py:43 | A string that contains the separator splits into at least two pieces. |
| Text.SplitCharCount | server.py:33-34 | Splitting on one character gives one more part than that character's count. |
| Text.NatToString | Client.py:422 | `str(n)` is a decimal string; below 10 it is the single digit. |
| Text.DecimalSepFree | Client.py:422 | A decimal string never contains CRLF, so it is safe as a record field. |
| Cipher.IndexOf | cipher.py:26 | `str.index` returns a position holding the character with no earlier occurrence. |
| Cipher.RotatedIndex | cipher.py:16-17 | Every lower-case letter occurs in the rotated alphabet, 13 places round from its plain position. |
| Cipher.RotCharShift | cipher.py:22-35 | The table lookup is the Caesar shift by 13 within each case; it keeps the case of letters and copies every other character. |
| Cipher.RotCharInvolution | cipher.py:37-53 | Decrypting a character that was encrypted gives it back. |
| Cipher.Rot13Involution | cipher.py:19-53 | `rot13_decrypt(rot13_encrypt(s)) == s` for every string, letters being the ASCII letters. On ASCII text the model and the source agree; see `Cipher.RotChar` under Left out for the rest. |
| Cipher.Rot13Encrypt | cipher.py:19-35 | The loop appends one character per input character: the ROT13 image of each. |
| Cipher.Rot13Decrypt | cipher.py:37-53 | The loop computes the same whole-string ROT13 (decryption is the same map). |
| Cipher.PadAmount | cipher.py:90 | The pad count is below 16, and the count plus one more pad character completes a 16-byte block. |
| Cipher.AesPad | cipher.py:89-97 | The padded text is a whole number of blocks. It is 1 to 16 bytes longer and keeps the plaintext as a prefix. The fill is `'0'`s and the last character is the hex digit giving the fill length. |
| Cipher.Unpad | cipher.py:119-124 | On ASCII text, unpadding succeeds exactly when the last character is a hex digit. The result is then a strictly shorter prefix. |
| Cipher.UnpadPad | cipher.py:89-124 | Unpadding a padded text gives back the plaintext. |
| Cipher.Utf8LengthBounds | cipher.py:102 | `plaintext.encode()` is never shorter than the text, and has the same length exactly when the text is ASCII. |
| Cipher.PadAscii | cipher.py:89-97 | Padding ASCII text gives ASCII text of whole 16-character blocks. |
| Cipher.AsciiEncrypts | cipher.py:80-105 | `AES_encrypt` succeeds on every ASCII text. |
| Cipher.NonAsciiRaises | cipher.py:89-102 | `AES_encrypt("é")` raises: the text pads to 16 characters but encodes to 17 bytes. |
| Cipher.AesRoundTrip | cipher.py:80-127 | With an inverse block cipher, `AES_decrypt(AES_encrypt(p))` is `p` whenever `AES_encrypt(p)` does not raise. |
| Codec.SplitFields | server.py:55 | A CRLF record of separator-free fields splits back into its fields. |
| Codec.ChatRecordFields | Client.py:397 | The chat record splits into `200`, destination, name, type, IV, key, message. |
| Codec.AccountRecordFields | Client.py:422 | The account record splits into `10`, name, hash, sequence, `0`. |
| Codec.KeyRequestRecordFields | Client.py:441 | The key request splits into `20`, name, IP, `0`, `0`. |
| Codec.DisconnectRecordFields | Client.py:459 | The disconnect record splits into five `0` fields. |
| Codec.KeyReplyFields | server.py:217 | The key reply splits into `20`, key, `0`. |
| Codec.ForwardRecordFields | server.py:239-241 | The forwarded record splits into name, sender IP, type, IV, key, message. |
| Codec.EnvelopeFields | Client.py:402 | An envelope of separator-free IV and ciphertext splits into exactly those two. |
| Codec.UnPack | Client.py:352-363 | A packet that does not split into two is returned as its split, never empty. |
| Codec.SealedUnPack | Client.py:352-363 | When sealing succeeds and its IV and ciphertext are free of CRLF, the sealed record unpacks to its fields under the same session key. |
| Codec.UnpackMessage | server.py:38-62 | Empty packets and packets that do not split into two are dropped. Records that are returned have 5 or 7 fields. |
| Codec.UnpackedSepFree | server.py:55 | Fields returned by `unpackMessage` never contain CRLF. |
| Codec.EnvelopeRoundTrip | server.py:38-62 | When sealing succeeds and its IV and ciphertext are free of CRLF, a 5- or 7-field record sealed under the session key is unpacked by the server to exactly its fields. |
| Codec.EnvelopeBrokenBySeparator | server.py:43-45 | For every CRLF-free IV and every ciphertext containing CRLF, the server drops the envelope whatever it would decrypt to, and the client's `unPack` (Client.py:354-358) returns the envelope's three or more pieces undecrypted. |
| Codec.BareAckUnpacks | Client.py:354-358 | The bare ACKs `50` and `55` reach the demultiplexer as one field. |
| Codec.KeyReplyUnpacks | Client.py:354-358 | The unencrypted key reply reaches the client as `20`, key, `0`. |
| UserStore.MaxUid | UserDatabase.py:85-90 | The top row of `ORDER BY uID DESC` is the largest id in the table. |
| UserStore.NextUid | UserDatabase.py:92-95 | The new id exceeds every id present, and is 0 for an empty table. |
| UserStore.FindUser | UserDatabase.py:119-124 | A row is found exactly when the name exists, and that row has the name. |
| UserStore.AddUserOutcome | UserDatabase.py:80-100 | `add_user` succeeds exactly when the name is free. A refusal leaves the table unchanged. A success appends exactly one row with the next id. |
| UserStore.AddUserKeepsUnique | UserDatabase.py:80-100 | Adding a user keeps user names unique. |
| UserStore.AddAllUnique | UserDatabase.py:80-100 | Any sequence of `add_user` calls from an empty table leaves names unique. |
| UserStore.GettersAfterAdd | UserDatabase.py:114-134 | After a successful add, the queries for public key, password and IP return the stored values, and query 3 returns the whole row. |
| UserStore.FindAppended | UserDatabase.py:97-99 | A row appended under a fresh name is the one the lookup finds. |
| UserStore.QueryUserNone | UserDatabase.py:114-134 | Unknown names and query codes outside 0..3 give `None`. |
| UserStore.UserDataBase.constructor | UserDatabase.py:18-21 | The object opens over the stored table. |
| UserStore.UserDataBase.AddUser | UserDatabase.py:23-24 | The table and result are those of `add_user`, and name uniqueness is preserved. |
| UserStore.UserDataBase.GetUserPublicKey | UserDatabase.py:26-27 | A key is returned exactly when the user exists, and it is that user's key. |
| UserStore.UserDataBase.GetUserPassword | UserDatabase.py:29-30 | A hash is returned exactly when the user exists, and it is that user's hash. |
| UserStore.UserDataBase.GetUserIP | UserDatabase.py:32-33 | An IP is returned exactly when the user exists, and it is that user's IP. |
| MessageStore.Strip | Database.py:43 | Removing spaces and dots keeps exactly the other characters. |
| MessageStore.ChatnameMeaning | Database.py:42-43 | A chat name is valid exactly when it has a character other than space and dot, and every character is a space, a dot or alphanumeric. |
| MessageStore.IsValidIp | Database.py:45-53 | The loop accepts exactly the strings of four dot-separated decimal parts. |
| MessageStore.ValidIpAddressShape | Database.py:45-53 | An accepted IP is digits and exactly three dots, and holds no CRLF. |
| MessageStore.MaxChatNum | Database.py:100-105 | The top row of `ORDER BY chatNum DESC` holds the largest chat number. |
| MessageStore.NextChatNum | Database.py:106-109 | A new chat number exceeds every existing one, and is 0 for an empty table. |
| MessageStore.RemoveChats | Database.py:130-134 | The delete keeps exactly the rows of other chats. |
| MessageStore.RemoveChatsAscending | Database.py:130-134 | Deleting rows keeps chat numbers ascending. |
| MessageStore.RemoveChatsUnique | Database.py:130-134 | Deleting rows keeps chat names unique. |
| MessageStore.IpOfAppended | Database.py:110-112 | A chat inserted under a fresh name is found with its IP. |
| MessageStore.ChatByIp | Database.py:76-83 | The first row with that IP is returned, or `None` when no row has it. |
| MessageStore.IpOf | Database.py:157-164 | An IP is returned exactly when the chat exists, and it is that chat's IP. |
| MessageStore.MaxMessageNum | Database.py:207-213 | The top row of `ORDER BY messageNum DESC` holds the largest message number. |
| MessageStore.NextMessageNum | Database.py:214-217 | A new message number exceeds every existing one, and is 0 for an empty table. |
| MessageStore.SliceStart | Database.py:191-192 | A negative slice start is clamped into the list, as Python does. |
| MessageStore.LastMessagesMeaning | Database.py:182-194 | The result is always a suffix of the table. For `n > 0` it has `min(n, len)` rows; for `n == 0` it is all rows; for `n < 0` the first `-n` rows are dropped. |
| MessageStore.MessagesAscending | Database.py:185 | Messages read from a valid store come out in ascending number order. |
| MessageStore.CreateChatOutcome | Database.py:86-115 | Codes: 1 exactly for a bad name, 2 for a bad IP, 3 for an existing chat, otherwise 0. Any failure leaves the store unchanged. Success appends one row with a number above every other, plus an empty message table. |
| MessageStore.CreateChatKeepsValid | Database.py:86-115 | Creating a chat preserves the store invariant: names unique, numbers ascending, and one table per chat row. |
| MessageStore.DeleteChatOutcome | Database.py:118-135 | Code 0 exactly when there is no such table, and then nothing changes. Code 1 drops the table and its rows and keeps every other chat and table. |
| MessageStore.DeleteChatKeepsValid | Database.py:118-135 | Deleting a chat preserves the store invariant. |
| MessageStore.AddMessageOutcome | Database.py:196-222 | Adding fails exactly when the chat is unknown, and then nothing changes. Success appends one row, numbered above every other, to that chat's table only. |
| MessageStore.AddMessageKeepsValid | Database.py:196-222 | Adding a message preserves the store invariant. |
| MessageStore.CreateThenQuery | Database.py:86-115 | After a successful create, the chat's IP is the one given and its message list is empty. |
| MessageStore.AddThenRead | Database.py:196-222 | After a successful add, the last message read back is the one added. |
| MessageStore.DataBase.constructor | Database.py:7-10 | The object opens over a valid stored state. |
| MessageStore.DataBase.CreateChat | Database.py:24-25 | The new state and code are those of `create_chat`, and the invariant holds. |
| MessageStore.DataBase.DeleteChat | Database.py:27-28 | The new state and code are those of `delete_chat`, and the invariant holds. |
| MessageStore.DataBase.AddMessage | Database.py:196-222 | The new state and outcome are those of `add_message`, and the invariant holds. |
| MessageStore.DataBase.StoreSentMessage | Database.py:12-13 | `add_message` with sender 1. |
| MessageStore.DataBase.StoreReceivedMessage | Database.py:15-16 | `add_message` with sender 0. |
| MessageStore.DataBase.GetNMessages | Database.py:21-22 | A result exists exactly when the chat table exists, and it is a suffix of that table. |
| MessageStore.DataBase.GetChatByIp | Database.py:30-31 | A returned row is a chat with that IP; `None` means no chat has it. |
| MessageStore.DataBase.GetIpByChatname | Database.py:33-34 | An IP is returned exactly when the chat exists, and it is that chat's IP. |
| Relay.ValidIPMeaning | server.py:32-36 | The server accepts an IP exactly when it contains three dots. |
| Relay.RemoveFirst | server.py:350-355 | Removing an absent client changes nothing. Removing a present client shortens the list by one and adds nobody. |
| Relay.RemoveFirstMultiset | server.py:352 | `list.remove` takes away exactly one occurrence of the client. |
| Relay.RemoveFirstAt | server.py:352 | `list.remove` splices out the first occurrence. |
| Relay.Forward | server.py:233-249 | Two packets are sent per destination: the relayed record and an ACK. |
| Relay.ForwardMeaning | server.py:233-249 | Each forwarded record goes, sealed under the destination's key, to a registered connection at the requested IP that is not the sender's socket. Every other packet is ACK `50` to the sender, and every such destination gets the record. |
| Relay.ForwardAcks | server.py:236-248 | No sealed packet goes back to the sender's address, and nothing is sent when there is no destination. |
| Relay.StepDisconnect | server.py:191-194 | A disconnect record ends the loop, sends nothing, and removes exactly one occurrence of the client. |
| Relay.StepAccount | server.py:195-207 | The reply is `50` exactly when the name was free and `55` exactly when it was taken. A new account stores the client's registered IP and key and the sent hash. |
| Relay.StepKeyRequest | server.py:208-219 | The reply is the requested user's key, and nothing is sent for an unknown user. |
| Relay.StepFrame | server.py:166-252 | One pass either keeps the registry or removes the client. It sends only to the client or to registered connections, and never sends a sealed record to the client's own address. |
| Relay.HandshakeAsWritten | server.py:93-119 | No client is ever registered by the handshake as written. |
| Relay.HandshakeGate | server.py:93-158 | A client is registered only after every check has passed, with the IP and key it announced and the session key from the decrypted response. |
| Relay.GenuineClientHandshake | server.py:116 | An honest client whose key transfer encrypts is rejected as written and registered with its IP, key and session key by the corrected handshake. |
| Relay.Server.constructor | server.py:332-340 | The server starts with no connections. |
| Relay.Server.AddClient | server.py:342-348 | Exactly one new connection, holding the given address, IP and keys, is appended. |
| Relay.Server.RemoveClient | server.py:350-355 | The registry becomes the one `list.remove` gives; a missing client is ignored. |
| Relay.Server.Accept | server.py:80-164 | With the signature test at server.py:116 corrected (see Findings), the outcome is that of `Relay.Handshake`. A registration appends one fresh connection with the handshake's IP and keys; anything else leaves the registry alone. |
| Relay.Server.AcceptAsWritten | server.py:80-164 | As written, a pass of `connectionThread` has the outcome of `Relay.HandshakeAsWritten`, never registers a client, and leaves the registry alone. |
| Relay.Server.HandleInbound | server.py:166-252 | The registry, user table, sent packets and loop end are those of one pass of `receivingThread`. |
| Agent.EncryptPayload | Client.py:365-394 | Only types 0, 1, 3, 4 and 5 give a payload, and 0 and 1 always do. Type 3 fails exactly when AES or the RSA encryption of the key raises, type 4 exactly when RSA encryption of the message raises, and type 5 exactly when RSA encryption of the key raises. The IV is `0` unless AES is used, and the key field is `0` for types 0, 1 and 4. |
| Agent.PayloadRoundTrip | Client.py:233-264 | With inverse primitives, `stripEnc` recovers the message from every payload the sender builds. |
| Agent.DemuxAck | Client.py:149-155 | `50` sets the ACK to True and `20` stores the key. Other short packets change nothing, and none of them delivers a message. |
| Agent.DemuxDeliver | Client.py:157-172 | A 6-field packet is delivered as (sender IP, decrypted text, sender name). If decryption fails the thread stops. |
| Agent.ReceiveAllGrows | Client.py:136-173 | The receiving loop only appends deliveries, and once stopped it changes nothing. |
| Agent.AckArrives | Client.py:151-152 | A bare `50` sets the ACK to True. |
| Agent.KeyArrives | Client.py:153-154 | A key reply stores the key in the ACK slot. |
| Agent.Client.constructor | Client.py:25-38 | The client is connected exactly when the handshake gave a session key. The ACK starts False. |
| Agent.Client.ReceivingThread | Client.py:136-173 | The shared state after the loop is the fold of the receive step over the packets. |
| Agent.Client.SendMessage | Client.py:43-53 | Without a socket the result is False. Otherwise the packet is the sealed chat record, an unsendable type or a failing encryption raises, and the status is the send result ANDed with the ACK; the ACK is reset afterwards. |
| Agent.Client.GetPublicKey | Client.py:55-65 | Without a socket the call raises. Otherwise the key request is sealed, and the call raises if sealing fails. If not, the packet is sent, the ACK is reset to None before the wait, and the key that arrived (or None) is returned; the ACK is then reset. |
| Agent.Client.CreateAccount | Client.py:70-86 | Without a socket the result is None. Otherwise the account record is sealed, and the call raises if sealing fails. If not, the packet is sent, the result is the send result ANDed with the ACK, and the user name is updated exactly when that result is truthy. |
| Agent.Client.Disconnect | Client.py:108-113 | The receiving thread stops, and the disconnect record is sealed and sent exactly when a socket exists. Sealing that ASCII record never raises. |
| Scenarios.StoredIpIsRelayable | Database.py:45-53 | An IP the chat store accepts also passes the server's IP check and is safe as a record field. |
| Scenarios.PlainChatForwarded | server.py:187-249 | A plaintext chat sealed by a client reaches every other client at the destination IP as the relayed record, and the sender is ACKed. |
| Scenarios.ForwardReachesAndAcks | server.py:233-249 | Every destination receives the record and the sender receives `50`. |
| Scenarios.ForwardedChatDelivered | Client.py:136-173 | The destination's receiving thread delivers a forwarded plaintext chat with the sender's IP and name. |
| Scenarios.AccountCreated | server.py:195-207 | A fresh account request is stored with the client's IP and key and answered `50`, which the client reads as success. |
| Scenarios.KeyLookup | server.py:208-219 | A key request for an existing user is answered with that user's key, which the client's thread stores as the ACK. |

## Left out

- Real cryptography is not modelled. AES, RSA-OAEP, PSS signatures and Fernet are abstract function values, and key generation and serialisation (`RSA_get_key_from_bytes` and friends) are left out. A key that fails to parse, and so raises, is not modelled.
- Sockets, timeouts, thread start/join, `time.sleep` and the interleaving of the receiving thread with the calling method are not modelled. The packets that arrive during a wait are a parameter. A key reply that arrives before `getPublicKey` resets the ACK to None is therefore not captured.
- The str/bytes distinction is not modelled: bytes and text are both strings of characters, and the model follows the evident intent wherever the source mixes them. As written, several calls fail on the type alone:
  - `AES_decrypt` returns a `str`, so the `.decode()` calls on its result and on `RSA_private_key_decrypt`'s (Client.py:253, 256) raise `AttributeError`, and types 3 and 4 never decrypt;
  - `AES_encrypt` is handed `bytes` by every sender (Client.py:400, 425, 444, 460 and server.py:243), and `plaintext += '0'` or `+= numpadding` on bytes raises `TypeError`;
  - `split(b'\r\n')` on the `str` that `AES_decrypt` returns (Client.py:363, server.py:55) or that `RSA_decrypt` returns through `RSA_private_key_decrypt` (server.py:153, cipher.py:186, 231) raises `TypeError`; the corrected `Relay.Handshake` splits the decrypted response as intended;
  - `RSA_public_key_encrypt` calls `.encode()` on its message, which at Client.py:385 is the AES key that `algorithms.AES` needs as bytes.
- Python's Unicode-aware builtins are taken in their ASCII forms: `isalnum` and `isdecimal` in `MessageStore`, `int(·, 16)` in `Cipher.HexValue`, and `isalpha`, `isupper`, `islower`, `lower` and `upper` in `Cipher.RotChar`. The two lines below say what that changes in the cipher.
- Cipher.Unpad: is exact on ASCII text only. `int('0x' + c, 16)` at cipher.py:120-121 also accepts any Unicode decimal digit (U+0663, `٣`, gives 3), which the model rejects. cipher.py:123 cuts `pad + 1` bytes and then decodes, where the model cuts characters: the results differ when the tail is not ASCII, and the source raises `UnicodeDecodeError` when the cut splits a multi-byte character or the decrypted bytes are not UTF-8. Decrypted text that `Pad` did not produce can reach it, because CBC is used without a MAC. `Cipher.AesRoundTrip` is unaffected.
- Cipher.RotChar: treats only the ASCII letters as letters. Python's Unicode `isalpha`/`isupper`/`islower` send other letters to `rotated_alpha.index`, which raises `ValueError` for `é` or `É`. The Kelvin sign (U+212A) lowers to `k` and becomes `X`, which decrypts to `K`. So `Cipher.Rot13Involution` describes the source only on ASCII text.
- RSA-OAEP's capacity is not modelled: `rsaEncrypt` returning `None` stands for the `ValueError` OAEP raises on a message longer than the key can hold, without saying which messages those are.
- `vig_encrypt`, `vig_decrypt` and `hashPassword` are not defined in any core file. Type 2 is a failure, and the password hash is taken as given.
- The client's handshake (`connectToServer`) is not modelled as a step: it calls `RSA_verify` in the same way as the server (Client.py:327). Only the records it sends (`Relay.ClientHello`, `Relay.ClientKeyTransfer`) are modelled.
- `get_chats_list`, `print_chats`, `print_users`, the JSON profile functions, `get_ip`, `getTimeStamp`, `run`, `exit`, `receivingThreads` bookkeeping and the UI are not modelled.
- SQLite details are not modelled: case-insensitive table names, a chat called `chats` colliding with the chats table, and SQL injection through message text in `add_message`'s f-string.
- MessageStore.DataBase.GetIpByChatname: returns `None` for an unknown chat, where `get_ip_address` raises a `TypeError` indexing `None`.
- MessageStore.DataBase.GetNMessages: returns `None` for a missing table, where the SQL query raises.
- Relay.Forward: does not model the `except Exception: break` that ends the forward loop early when sealing for or sending to a destination fails (for example `AES_encrypt` raising on non-ASCII text); the relayed record is a `Sealed` packet, not its ciphertext.
- Relay.Server.Accept: models one pass of `connectionThread` on given bytes, with the signature test corrected; `Relay.Server.AcceptAsWritten` is the pass as written. The loop and its socket timeouts are not modelled.
- The random sequence number and random IVs are arguments.
- `Send_and_Receive_v2.py`, `UI.py` and the `testDB*.py` scripts are not part of this model.

## Findings

| source | as written | input that shows it | evidently intended | confidence | as-written member | corrected member |
|---|---|---|---|---|---|---|
| server.py:116 | `if not RSA_verify(...)` rejects the client, but `RSA_verify` (cipher.py:199-209) returns `None` when the signature is good and raises `InvalidSignature` when it is bad. | A genuine client's hello with a valid signature: `not None` is true, so it is turned away; a bad signature ends the accept thread. | Reject exactly when the signature does not verify, and register a client whose signatures verify. | not executed | Relay.HandshakeAsWritten | Relay.Handshake |
