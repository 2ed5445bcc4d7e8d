/** The event masks of project/7_myMuduo/Channel.h and Channel.cc. */
module ChannelEvents {
  type Events = bv8

  const NONE_EVENT: Events := 0
  /** EPOLLIN | EPOLLPRI */
  const READ_EVENT: Events := 3
  /** EPOLLOUT */
  const WRITE_EVENT: Events := 4

  /** isWriting compares with the whole event mask. */
  predicate IsWriting(events: Events) {
    events == WRITE_EVENT
  }
}
