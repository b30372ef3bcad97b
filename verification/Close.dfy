/** Close codes and reasons as close.hpp reads them off a close frame (sections 5.5.1 and 7.4 of RFC 6455). */
module Close {
  import opened Bytes
  import opened MachineWord
  import opened ByteOrder
  import opened Utf8Validator

  /** A 16-bit status code. */
  type Code = Word

  const PROTOCOL_ERROR: Code := 1002
  const NO_STATUS: Code := 1005
  const ABNORMAL_CLOSE: Code := 1006
  const TLS_HANDSHAKE: Code := 1015
  const RSV_START: Code := 1016
  const RSV_END: Code := 2999
  const INVALID_LOW: Code := 999
  const INVALID_HIGH: Code := 5000

  datatype Error = NoError | BadCloseCode | InvalidCloseCode | ReservedCloseCode | InvalidUtf8

  predicate Reserved(code: Code) {
    (RSV_START <= code <= RSV_END) || code == 1004
  }

  predicate Invalid(code: Code) {
    code <= INVALID_LOW || code >= INVALID_HIGH || code == NO_STATUS || code == ABNORMAL_CLOSE || code == TLS_HANDSHAKE
  }

  /** The codes that an endpoint may send: those defined by the protocol, and the registered and private ranges. */
  predicate AllowedOnWire(code: Code) {
    1000 <= code <= 1003 || 1007 <= code <= 1014 || 3000 <= code <= 4999
  }

  lemma AllowedIsNeitherInvalidNorReserved(code: Code)
    ensures AllowedOnWire(code) <==> !Invalid(code) && !Reserved(code)
    ensures !(Invalid(code) && Reserved(code))
  {}

  /** `extract_code`: the code and the error that is flagged. */
  function ExtractCode(payload: seq<Byte>, littleEndian: bool): (r: (Code, Error))
    ensures payload == [] ==> r == (1005, NoError)
    ensures |payload| == 1 ==> r == (1002, BadCloseCode)
    ensures |payload| >= 2 ==> r.0 == Value16(payload)
    ensures |payload| >= 2 ==>
              var n := Value16(payload);
              && (r.1 == NoError <==> AllowedOnWire(n))
              && (r.1 == InvalidCloseCode <==> n <= 999 || n >= 5000 || n == 1005 || n == 1006 || n == 1015)
              && (r.1 == ReservedCloseCode <==> n == 1004 || 1016 <= n <= 2999)
  {
    if |payload| == 0 then (NO_STATUS, NoError)
    else if |payload| == 1 then (PROTOCOL_ERROR, BadCloseCode)
    else
      var val := Load16(littleEndian, payload[..2]);
      var code := Ntohs(littleEndian, val);
      NtohsOfLoad16(littleEndian, payload[..2]);
      AllowedIsNeitherInvalidNorReserved(code);
      assert code == Value16(payload);
      var ec := if Invalid(code) then InvalidCloseCode else NoError;
      (code, if Reserved(code) then ReservedCloseCode else ec)
  }

  /** `extract_reason`: everything after the code, flagged when it is not UTF-8. */
  method ExtractReason(payload: seq<Byte>) returns (reason: seq<Byte>, ec: Error)
    ensures reason == if |payload| > 2 then payload[2..] else []
    ensures ec == if WellFormed(reason) then NoError else InvalidUtf8
  {
    reason, ec := [], NoError;
    if |payload| > 2 {
      reason := payload[2..];
    }
    var valid := Validate(reason);
    if !valid {
      ec := InvalidUtf8;
    }
  }

  /**
   * Both extractions together find no fault with a payload exactly when it is empty, or it has a code that may be sent
   * and a reason that is UTF-8.
   */
  method AcceptsClose(payload: seq<Byte>, littleEndian: bool) returns (ok: bool)
    ensures ok <==> payload == [] || (|payload| >= 2 && AllowedOnWire(Value16(payload)) && WellFormed(payload[2..]))
    ensures ok && payload != [] ==>
              1000 <= Value16(payload) <= 1003 || 1007 <= Value16(payload) <= 1014 || 3000 <= Value16(payload) <= 4999
  {
    var code := ExtractCode(payload, littleEndian);
    var reason, ec := ExtractReason(payload);
    if |payload| >= 2 {
      assert reason == payload[2..];
    }
    assert payload == [] ==> WellFormed(reason) by {
      assert Encode([]) == [];
    }
    ok := code.1 == NoError && ec == NoError;
  }
}
