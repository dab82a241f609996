/** Packing and opening encrypted RPC commands. */
module Rpc {
  import opened Basics
  import opened Varint
  import opened Pprpc
  import Crypto
  import Keys

  const AES_256_CBC := 3

  datatype RpcError =
    | BadRpcType
    | NegativeVarint
    | UnsupportedEncryption(encryptionType: nat)
    | Cipher(error: Crypto.CryptoError)

  /** The encrypted payload: nothing for an empty plaintext, padded CBC blocks otherwise. */
  function SealPayload(
      suite: Crypto.Suite, sequence: nat, commandId: nat, rpcType: nat, plaintext: bytes, prefix: bytes)
    : (payload: bytes)
    ensures payload == [] <==> plaintext == []
    ensures |payload| == if plaintext == [] then 0 else |plaintext| + Crypto.PadLength(|plaintext|)
  {
    if plaintext == [] then []
    else
      var key := Keys.DeriveRpcKey(suite, prefix, sequence, commandId, rpcType);
      Crypto.EncryptPadded(suite, plaintext, key, key[..16]).value
  }

  function PackRpc(
      suite: Crypto.Suite, sequence: int, commandId: int, plaintext: bytes, prefix: bytes,
      rpcType: int, responseCode: int)
    : (r: Result<bytes, RpcError>)
    ensures r.Success? <==>
              && rpcType in {RPC_REQUEST, RPC_RESPONSE} && sequence >= 0 && commandId >= 0
              && (rpcType == RPC_RESPONSE ==> responseCode >= 0)
  {
    if rpcType !in {RPC_REQUEST, RPC_RESPONSE} then Failure(BadRpcType)
    else if sequence < 0 || commandId < 0 || (rpcType == RPC_RESPONSE && responseCode < 0) then
      Failure(NegativeVarint)
    else
      var payload := SealPayload(suite, sequence, commandId, rpcType, plaintext, prefix);
      var code := if rpcType == RPC_RESPONSE then Some(responseCode) else None;
      Success(EncodeFrame(4, 8, EncodeRpcBody(sequence, commandId, AES_256_CBC, code, payload)))
  }

  function DecryptRpcPayload(suite: Crypto.Suite, packet: RPCPacket, prefix: bytes): Result<bytes, RpcError> {
    if packet.payload == [] then Success([])
    else if packet.encryptionType != AES_256_CBC then Failure(UnsupportedEncryption(packet.encryptionType))
    else
      var key := Keys.DeriveRpcKey(suite, prefix, packet.sequence, packet.commandId, packet.rpcType);
      match Crypto.DecryptPadded(suite, packet.payload, key, key[..16])
      case Success(plaintext) => Success(plaintext)
      case Failure(e) => Failure(Cipher(e))
  }

  /** The size of the packed body: two varints, one flag byte, a response's code, and whole cipher blocks. */
  function PackedBodyLength(sequence: nat, commandId: nat, code: Option<nat>, plaintextLength: nat): nat {
    |EncodeVarint(sequence)| + |EncodeVarint(commandId)| + 1
    + (if code.Some? then |EncodeVarint(code.value)| else 0)
    + (if plaintextLength == 0 then 0 else plaintextLength + Crypto.PadLength(plaintextLength))
  }

  /** Packing then parsing and decrypting returns every field and the plaintext exactly when the sequence, the
      command, a response's code and the body length are all below 2^28; otherwise the parser refuses. */
  lemma PackRoundTrip(
      suite: Crypto.Suite, sequence: nat, commandId: nat, plaintext: bytes, prefix: bytes, code: Option<nat>)
    ensures
      var rpcType := if code.Some? then RPC_RESPONSE else RPC_REQUEST;
      var packed := PackRpc(suite, sequence, commandId, plaintext, prefix, rpcType,
                            if code.Some? then code.value else 0);
      && packed.Success? && packed.value != [] && packed.value[0] == 0x48
      && var bodyLength := PackedBodyLength(sequence, commandId, code, |plaintext|);
         var parsed := ParsePacket(packed.value, Some(false), true);
         if Fits(sequence, 4) && Fits(commandId, 4) && (code.Some? ==> Fits(code.value, 4)) && Fits(bodyLength, 4)
         then
           && parsed.Success? && parsed.value.Rpc?
           && var rpc := parsed.value.rpc;
              && rpc.header.messageType == 4 && rpc.header.flag == 8 && rpc.header.length == bodyLength
              && !rpc.header.isUdp && |packed.value| == rpc.header.size + bodyLength
              && rpc.sequence == sequence && rpc.commandId == commandId
              && rpc.encryptionType == AES_256_CBC && rpc.rpcType == rpcType && rpc.responseCode == code
              && DecryptRpcPayload(suite, rpc, prefix) == Success(plaintext)
         else
           parsed == Failure(BadVarint(OversizedVarint))
  {
    hide EncodeVarint, ParsePacket, ParseRpc, Fits, Crypto.EncryptPadded, Crypto.DecryptPadded, Keys.DeriveRpcKey;
    var rpcType := if code.Some? then RPC_RESPONSE else RPC_REQUEST;
    var payload := SealPayload(suite, sequence, commandId, rpcType, plaintext, prefix);
    var body := EncodeRpcBody(sequence, commandId, AES_256_CBC, code, payload);
    ParseOfEncodedFrame(4, 8, body);
    ParseOfEncodedRpc(TcpHeader(4, 8, body), sequence, commandId, AES_256_CBC, code, payload);
    if plaintext != [] {
      var key := Keys.DeriveRpcKey(suite, prefix, sequence, commandId, rpcType);
      PaddedIsAccepted(suite, plaintext, key);
      Crypto.DecryptPaddedIffEncrypted(suite, plaintext, payload, key, key[..16]);
    }
  }

  /** A sealed payload, block by block: the padded text under AES-CBC, whose key is the digest of the prefix and a text
      that names command, sequence and type, and whose vector is the first half of the key. */
  lemma SealedBlocks(
      suite: Crypto.Suite, sequence: nat, commandId: nat, rpcType: nat, plaintext: bytes, prefix: bytes)
    returns (text: bytes)
    requires plaintext != []
    ensures Keys.ReadRpcText(text) == Some((commandId, sequence, rpcType))
    ensures var key := suite.md5Hex(prefix + text);
            var padded, payload := Crypto.Pad(plaintext),
                                   SealPayload(suite, sequence, commandId, rpcType, plaintext, prefix);
            && |payload| == |padded|
            && forall j: nat | 16 * (j + 1) <= |padded| ::
                 Crypto.Block(payload, j)
                 == suite.encryptBlock(key, Crypto.Xor(Crypto.Block(padded, j), Crypto.Chained(key[..16], payload, j)))
  {
    hide Crypto.CbcEncrypt, Crypto.Pad, Crypto.Block, Crypto.Chained, Keys.ReadRpcText, Keys.DeriveRpcKey;
    text := Keys.RpcKeyIs(suite, prefix, sequence, commandId, rpcType);
    var key := Keys.DeriveRpcKey(suite, prefix, sequence, commandId, rpcType);
    PaddedIsAccepted(suite, plaintext, key);
    forall j: nat | 16 * (j + 1) <= |Crypto.Pad(plaintext)|
      ensures var payload := SealPayload(suite, sequence, commandId, rpcType, plaintext, prefix);
              Crypto.Block(payload, j)
              == suite.encryptBlock(key, Crypto.Xor(Crypto.Block(Crypto.Pad(plaintext), j),
                                                    Crypto.Chained(key[..16], payload, j)))
    {
      Crypto.EncryptedBlock(suite, key, key[..16], Crypto.Pad(plaintext), j);
    }
  }

  /** A payload opens to a text exactly when both are empty, or it is that text sealed under the packet's own numbers
      with the one known encryption. */
  lemma OpensIff(suite: Crypto.Suite, packet: RPCPacket, prefix: bytes, plaintext: bytes)
    ensures DecryptRpcPayload(suite, packet, prefix) == Success(plaintext) <==>
              if packet.payload == [] then plaintext == []
              else
                var key := Keys.DeriveRpcKey(suite, prefix, packet.sequence, packet.commandId, packet.rpcType);
                && packet.encryptionType == 3
                && Crypto.EncryptPadded(suite, plaintext, key, key[..16]) == Success(packet.payload)
  {
    hide Crypto.EncryptPadded, Crypto.DecryptPadded, Keys.DeriveRpcKey;
    var key := Keys.DeriveRpcKey(suite, prefix, packet.sequence, packet.commandId, packet.rpcType);
    Crypto.DecryptPaddedIffEncrypted(suite, plaintext, packet.payload, key, key[..16]);
  }

  lemma PaddedIsAccepted(suite: Crypto.Suite, plaintext: bytes, key: bytes)
    requires |key| == 32
    ensures Crypto.EncryptPadded(suite, plaintext, key, key[..16])
         == Success(Crypto.CbcEncrypt(suite, key, key[..16], Crypto.Pad(plaintext)))
  {
  }
}
