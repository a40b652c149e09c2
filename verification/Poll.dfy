/** The part of `poll.h` the servers use. */
module Poll {

  /** The `revents` value the servers look for; they compare with `==`, so any further bit hides it. */
  const POLLRDNORM := 0x40

  datatype PollFd = PollFd(fd: nat, revents: int)

  function Names(entries: seq<PollFd>): (r: seq<nat>)
    ensures |r| == |entries|
    ensures forall k :: 0 <= k < |r| ==> r[k] == entries[k].fd
  {
    seq(|entries|, k requires 0 <= k < |entries| => entries[k].fd)
  }

  /** The return value of `poll`: the number of entries with any event. */
  function CountReady(entries: seq<PollFd>): nat {
    if entries == [] then 0 else (if entries[0].revents != 0 then 1 else 0) + CountReady(entries[1..])
  }

  /** What `poll` writes into the vector. */
  function Reported(entries: seq<PollFd>, revents: nat -> int): (r: seq<PollFd>)
    ensures Names(r) == Names(entries)
  {
    seq(|entries|, k requires 0 <= k < |entries| => PollFd(entries[k].fd, revents(entries[k].fd)))
  }

  lemma {:induction false} CountZero(entries: seq<PollFd>)
    requires CountReady(entries) == 0
    ensures forall e <- entries :: e.revents == 0
  {
    if entries != [] {
      CountZero(entries[1..]);
    }
  }
}
