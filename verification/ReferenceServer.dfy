/** A reference SDO server (section 7.2.4.3 of CiA 301 v4.2.0). */
module ReferenceServer {
  import opened Bytes
  import opened SdoMessages
  import opened SdoObserver
  import opened SdoEncoding

  /** How a server answers an upload: in the initiation response, or cut into segments of its choice. */
  datatype Answer =
    | InOne(sized: bool, data: seq<Byte>)
    | InSegments(sized: bool, chunks: seq<seq<Byte>>)

  predicate ValidAnswer(x: Answer) {
    match x
    case InOne(sized, data) => 1 <= |data| <= 4 && (sized || |data| == 4)
    case InSegments(_, chunks) => ValidChunks(chunks)
  }

  /** A server with one object; `rest` are the segments an upload still has to deliver. */
  datatype Server = Server(
    client: nat, server: nat, address: Address, answer: Answer, rest: seq<seq<Byte>>, toggle: bool)
  {
    predicate Valid() {
      && ValidAnswer(answer)
      && forall k :: 0 <= k < |rest| ==> |rest[k]| <= SEGMENT_BYTES
    }
  }

  const NO_SUCH_OBJECT: nat := 0x0602_0000
  const TOGGLE_NOT_ALTERNATED: nat := 0x0503_0000
  const NO_SUCH_COMMAND: nat := 0x0504_0001

  function AbortFrame(a: Address, code: nat): seq<Byte> {
    Header(0x80, a) + ToBytes(code, 4)
  }

  /** One request and the reply to it. */
  function Serve(v: Server, request: seq<Byte>): (r: (Server, Option<seq<Byte>>))
    requires v.Valid()
    ensures r.0.Valid()
  {
    if |request| != FRAME_LENGTH || Specifier(request[0]) == 4 then (v.(rest := []), None)
    else if Specifier(request[0]) == 2 then
      var asked := Address(Index(request), SubIndex(request));
      if asked != v.address then (v.(rest := []), Some(AbortFrame(asked, NO_SUCH_OBJECT)))
      else
        match v.answer
        case InOne(sized, data) => (v.(rest := []), Some(ExpeditedFrame(Upload, sized, v.address, data)))
        case InSegments(sized, chunks) =>
          (v.(rest := chunks, toggle := false), Some(InitiateFrame(Upload, sized, v.address, |Flatten(chunks)|)))
    else if Specifier(request[0]) != 3 || v.rest == [] then
      (v.(rest := []), Some(AbortFrame(v.address, NO_SUCH_COMMAND)))
    else if Toggle(request[0]) != v.toggle then
      (v.(rest := []), Some(AbortFrame(v.address, TOGGLE_NOT_ALTERNATED)))
    else
      (v.(rest := v.rest[1..], toggle := !v.toggle), Some(SegmentFrame(v.toggle, |v.rest| == 1, v.rest[0])))
  }

  /** Segments the server still has to send once `request` reaches it; bounds the exchange. */
  function Work(v: Server, request: seq<Byte>): nat {
    if |request| == FRAME_LENGTH && Specifier(request[0]) == 2 then
      2 + if v.answer.InSegments? then |v.answer.chunks| else 0
    else if v.rest != [] then 1 + |v.rest|
    else 0
  }
}
