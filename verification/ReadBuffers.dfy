/** The receive buffer: `read_data_buffer_` belongs to TcpCom and is passed by reference to the
    parser of the lidar in use. */
module ReadBuffers {
  import opened Bytes

  class ReadBuffer {
    var data: seq<Byte>

    constructor ()
      ensures data == []
    {
      data := [];
    }
  }
}
