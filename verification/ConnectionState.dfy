/** The four states of a TcpConnection. */
module ConnectionState {
  datatype ConnState = Connecting | Connected | Disconnecting | Disconnected
}
