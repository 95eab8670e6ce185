/** Classic CAN frames (internal/cantransport/cantransport.go). */
module Bus {
  import opened Bytes

  datatype Frame = Frame(id: nat, extended: bool, data: seq<Byte>)
}
