/** Protocol detection from the first bytes of a connection (`gateway/protocol.py`). */
module Protocols {

  newtype byte = x: int | 0 <= x < 256

  type Bytes = seq<byte>

  datatype Protocol = SSH | HTTP | TLS | TELNET | RAW {
    function Label(): string {
      match this
      case SSH => "ssh"
      case HTTP => "http"
      case TLS => "tls"
      case TELNET => "telnet"
      case RAW => "raw"
    }
  }

  function Ascii(s: string): Bytes { seq(|s|, i requires 0 <= i < |s| => (s[i] as int % 256) as byte) }

  const SSH_SIGNATURE: Bytes := [0x53, 0x53, 0x48, 0x2D]
  const HTTP_METHODS := ["GET ", "POST ", "HEAD ", "PUT ", "DELETE ", "OPTIONS ", "PATCH ", "TRACE ", "CONNECT "]
  const TLS_CLIENT_HELLO: Bytes := [0x16, 0x03]
  const TELNET_IAC: Bytes := [0xFF]

  predicate StartsWithMethod(data: Bytes) { exists m :: m in HTTP_METHODS && Ascii(m) <= data }

  function DetectProtocol(data: Bytes): Protocol {
    if data == [] then RAW
    else if SSH_SIGNATURE <= data then SSH
    else if TLS_CLIENT_HELLO <= data then TLS
    else if TELNET_IAC <= data then TELNET
    else if StartsWithMethod(data) then HTTP
    else RAW
  }

  lemma MethodInitial(m: string)
    requires m in HTTP_METHODS
    ensures m != "" && m[0] in ['C', 'D', 'G', 'H', 'O', 'P', 'T']
  {}

  lemma MethodStart(data: Bytes)
    requires StartsWithMethod(data)
    ensures data != [] && data[0] in [0x43, 0x44, 0x47, 0x48, 0x4F, 0x50, 0x54]
  {
    hide HTTP_METHODS;
    var m :| m in HTTP_METHODS && Ascii(m) <= data;
    MethodInitial(m);
    assert data[0] == Ascii(m)[0];
  }

  /** The prefixes exclude each other, so the order of the tests does not matter: each protocol is
      reported exactly for the payloads that carry its prefix. */
  lemma DetectionExact(data: Bytes)
    ensures DetectProtocol(data) == SSH <==> SSH_SIGNATURE <= data
    ensures DetectProtocol(data) == TLS <==> TLS_CLIENT_HELLO <= data
    ensures DetectProtocol(data) == TELNET <==> TELNET_IAC <= data
    ensures DetectProtocol(data) == HTTP <==> StartsWithMethod(data)
  {
    hide StartsWithMethod, Ascii, HTTP_METHODS;
    assert SSH_SIGNATURE <= data ==> data[0] == SSH_SIGNATURE[0];
    assert TLS_CLIENT_HELLO <= data ==> data[0] == TLS_CLIENT_HELLO[0];
    assert TELNET_IAC <= data ==> data[0] == TELNET_IAC[0];
    if StartsWithMethod(data) {
      MethodStart(data);
    }
  }

  /** The label that rules and signatures see: it names the prefix of the payload, and is `raw` without one. */
  lemma LabelExact(data: Bytes)
    ensures var name := DetectProtocol(data).Label();
      && (name == "ssh" <==> SSH_SIGNATURE <= data) && (name == "tls" <==> TLS_CLIENT_HELLO <= data)
      && (name == "telnet" <==> TELNET_IAC <= data) && (name == "http" <==> StartsWithMethod(data))
      && (name == "raw" <==>
          !(SSH_SIGNATURE <= data || TLS_CLIENT_HELLO <= data || TELNET_IAC <= data || StartsWithMethod(data)))
  {
    hide DetectProtocol, StartsWithMethod;
    DetectionExact(data);
    LabelsDiffer(DetectProtocol(data));
  }

  /** The prefixes byte by byte: `SSH-`, a TLS handshake record of version 3, and Telnet's IAC. */
  lemma PrefixBytes(data: Bytes)
    ensures SSH_SIGNATURE <= data <==>
      |data| >= 4 && data[0] == 0x53 && data[1] == 0x53 && data[2] == 0x48 && data[3] == 0x2D
    ensures TLS_CLIENT_HELLO <= data <==> |data| >= 2 && data[0] == 0x16 && data[1] == 0x03
    ensures TELNET_IAC <= data <==> |data| >= 1 && data[0] == 0xFF
  {}

  lemma MethodAndSpace(m: string)
    requires m in ["GET", "POST", "HEAD", "PUT", "DELETE", "OPTIONS", "PATCH", "TRACE", "CONNECT"]
    ensures m + " " in HTTP_METHODS
  {
    var methods := HTTP_METHODS;
    assert "GET" + " " == methods[0] && "POST" + " " == methods[1] && "HEAD" + " " == methods[2];
    assert "PUT" + " " == methods[3] && "DELETE" + " " == methods[4] && "OPTIONS" + " " == methods[5];
    assert "PATCH" + " " == methods[6] && "TRACE" + " " == methods[7] && "CONNECT" + " " == methods[8];
  }

  /** Each of the nine methods, followed by a space, makes a payload HTTP. */
  lemma RequestIsHttp(m: string, rest: Bytes)
    requires m in ["GET", "POST", "HEAD", "PUT", "DELETE", "OPTIONS", "PATCH", "TRACE", "CONNECT"]
    ensures DetectProtocol(Ascii(m + " ") + rest).Label() == "http"
  {
    hide DetectProtocol, Ascii;
    MethodAndSpace(m);
    assert Ascii(m + " ") <= Ascii(m + " ") + rest;
    LabelExact(Ascii(m + " ") + rest);
  }

  lemma LabelsDiffer(p: Protocol)
    ensures (p.Label() == "ssh" <==> p == SSH) && (p.Label() == "telnet" <==> p == TELNET)
    ensures (p.Label() == "http" <==> p == HTTP) && (p.Label() == "tls" <==> p == TLS)
    ensures p.Label() == "raw" <==> p == RAW
  {}
}
