/** The three states an Epoll keeps in a Channel. */
module ChannelStatus {
  datatype Status = New | Added | Deleted

  // The state after Epoll::updateChannel
  function NextStatus(status: Status, noEvents: bool): Status {
    if status == Added && noEvents then Deleted else Added
  }
}
