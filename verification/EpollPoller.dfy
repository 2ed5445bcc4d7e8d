/** The registrations of channels with epoll: project/7_myMuduo/EpollPoller.cc and
    Channel.h. */
module EpollPoller {
  import opened ChannelEvents

  /** The `index_` of a channel: kNew, kAdded, kDeleted. */
  datatype Index = New | Added | Deleted

  datatype Operation = CtlAdd | CtlMod | CtlDel

  class Channel {
    const fd: int
    const poller: EpollPoller
    var events: Events
    var index: Index

    /** A channel that is to use the poller; nothing else may have its descriptor. */
    constructor (fd: int, poller: EpollPoller)
      requires poller.Valid() && forall c :: c in poller.users ==> c.fd != fd
      modifies poller`users
      ensures this.fd == fd && this.poller == poller && events == NONE_EVENT && index == New
      ensures poller.Valid() && poller.users == old(poller.users) + {this}
      ensures poller.kernel == old(poller.kernel) && poller.channels == old(poller.channels)
    {
      this.fd, this.poller, events, index := fd, poller, NONE_EVENT, New;
      new;
      poller.users := poller.users + {this};
    }

    ghost predicate InUse()
      reads this, poller, poller.users
    {
      this in poller.users && poller.Valid()
    }

    method EnableReading()
      requires InUse()
      modifies this, poller
      ensures InUse()
      ensures poller.Updated(this, old(events | READ_EVENT), old(index), old(poller.kernel), old(poller.users))
    {
      events := events | READ_EVENT;
      poller.UpdateChannel(this);
    }

    method DisableReading()
      requires InUse()
      modifies this, poller
      ensures InUse()
      ensures poller.Updated(this, old(events & !READ_EVENT), old(index), old(poller.kernel), old(poller.users))
    {
      events := events & !READ_EVENT;
      poller.UpdateChannel(this);
    }

    method EnableWriting()
      requires InUse()
      modifies this, poller
      ensures InUse()
      ensures poller.Updated(this, old(events | WRITE_EVENT), old(index), old(poller.kernel), old(poller.users))
    {
      events := events | WRITE_EVENT;
      poller.UpdateChannel(this);
    }

    method DisableWriting()
      requires InUse()
      modifies this, poller
      ensures InUse()
      ensures poller.Updated(this, old(events & !WRITE_EVENT), old(index), old(poller.kernel), old(poller.users))
    {
      events := events & !WRITE_EVENT;
      poller.UpdateChannel(this);
    }

    /** On a channel that is not registered this registers it, with an empty mask. */
    method DisableAll()
      requires InUse()
      modifies this, poller
      ensures InUse() && poller.Updated(this, NONE_EVENT, old(index), old(poller.kernel), old(poller.users))
      ensures index == if old(index) == Added then Deleted else Added
    {
      events := NONE_EVENT;
      poller.UpdateChannel(this);
    }

    method Remove()
      requires InUse()
      modifies this, poller
      ensures InUse() && index == New && events == old(events) && poller.users == old(poller.users)
      ensures poller.kernel == old(poller.kernel) - {fd} && poller.channels == old(poller.channels) - {fd}
    {
      poller.RemoveChannel(this);
    }
  }

  class EpollPoller {
    var channels: map<int, Channel>
    /** The interest set the kernel keeps for this epoll instance. */
    ghost var kernel: map<int, Events>
    /** All channels made for this poller. */
    ghost var users: set<Channel>

    /** Everything agrees, except that the kernel may not know the mask of `changed` yet. */
    ghost predicate ValidBut(changed: set<Channel>)
      reads this, users
    {
      && (forall c :: c in users ==> c.poller == this)
      && (forall c, d :: c in users && d in users && c.fd == d.fd ==> c == d)
      && (forall c :: c in users ==> (c.fd in kernel <==> c.index == Added))
      && (forall c :: c in users && c.index == Added && c !in changed ==> kernel[c.fd] == c.events)
      && (forall fd :: fd in kernel ==> exists c :: c in users && c.fd == fd)
      && (forall c :: c in users ==> (c.fd in channels <==> c.index != New))
      && (forall fd :: fd in channels ==> channels[fd] in users && channels[fd].fd == fd)
    }

    /** The kernel's interest set is the masks of the channels that are kAdded, by
        descriptor; the map holds the channels that are not kNew. */
    ghost predicate Valid()
      reads this, users
    {
      ValidBut({})
    }

    constructor ()
      ensures Valid() && channels == map[] && kernel == map[] && users == {}
    {
      channels, kernel, users := map[], map[], {};
    }

    /** epoll_ctl, which may be asked to add only what is not registered, and to change or
        delete only what is. */
    method Update(operation: Operation, channel: Channel)
      requires operation == CtlAdd ==> channel.fd !in kernel
      requires operation != CtlAdd ==> channel.fd in kernel
      modifies this`kernel
      ensures kernel ==
        if operation == CtlDel then old(kernel) - {channel.fd} else old(kernel)[channel.fd := channel.events]
    {
      kernel := if operation == CtlDel then kernel - {channel.fd} else kernel[channel.fd := channel.events];
    }

    /** What an update of `c` to the mask `events` has done, given its index, the interest
        set and the users before. */
    ghost predicate Updated(c: Channel, events: Events, index: Index, kernel0: map<int, Events>, users0: set<Channel>)
      reads this, c
    {
      && c.events == events && users == users0
      && c.index == (if index == Added && events == NONE_EVENT then Deleted else Added)
      && kernel == if c.index == Deleted then kernel0 - {c.fd} else kernel0[c.fd := events]
    }

    method UpdateChannel(channel: Channel)
      requires channel in users && ValidBut({channel})
      modifies this`channels, this`kernel, channel`index
      ensures Valid() && Updated(channel, old(channel.events), old(channel.index), old(kernel), old(users))
    {
      if channel.index == New || channel.index == Deleted {
        if channel.index == New {
          channels := channels[channel.fd := channel];
        }
        channel.index := Added;
        Update(CtlAdd, channel);
      } else if channel.events == NONE_EVENT {
        Update(CtlDel, channel);
        channel.index := Deleted;
      } else {
        Update(CtlMod, channel);
      }
    }

    method RemoveChannel(channel: Channel)
      requires channel in users && Valid()
      modifies this`channels, this`kernel, channel`index
      ensures Valid() && channel.index == New
      ensures kernel == old(kernel) - {channel.fd} && channels == old(channels) - {channel.fd}
    {
      channels := channels - {channel.fd};
      if channel.index == Added {
        Update(CtlDel, channel);
      }
      channel.index := New;
    }
  }

  /** The interest set, descriptor by descriptor: exactly the channels that are kAdded, with
      their masks. The map: exactly the channels that are not kNew. */
  lemma InterestSet(p: EpollPoller, fd: int)
    requires p.Valid()
    ensures fd in p.kernel <==> exists c :: c in p.users && c.fd == fd && c.index == Added
    ensures forall c :: c in p.users && c.index == Added ==> c.fd in p.kernel && p.kernel[c.fd] == c.events
    ensures fd in p.channels <==> exists c :: c in p.users && c.fd == fd && c.index != New
    ensures forall c :: c in p.users && c.index != New ==> c.fd in p.channels && p.channels[c.fd] == c
  {
  }

  // ----- sequences of calls -----

  datatype Call = EnablesReading | DisablesReading | EnablesWriting | DisablesWriting | DisablesAll | Removes

  /** A channel as far as calls on it are concerned. */
  datatype Status = Status(events: Events, index: Index)

  /** What becomes of a channel by an update to a mask. */
  function Renewed(st: Status, events: Events): Status {
    Status(events, if st.index == Added && events == NONE_EVENT then Deleted else Added)
  }

  function Called(st: Status, call: Call): Status {
    match call
    case EnablesReading => Renewed(st, st.events | READ_EVENT)
    case DisablesReading => Renewed(st, st.events & !READ_EVENT)
    case EnablesWriting => Renewed(st, st.events | WRITE_EVENT)
    case DisablesWriting => Renewed(st, st.events & !WRITE_EVENT)
    case DisablesAll => Renewed(st, NONE_EVENT)
    case Removes => st.(index := New)
  }

  /** What a sequence of calls on several channels makes of the channel `c`. */
  ghost function AllCalled(st: Status, calls: seq<(Channel, Call)>, c: Channel): Status {
    if calls == [] then st
    else
      var before := AllCalled(st, calls[..|calls| - 1], c);
      if calls[|calls| - 1].0 == c then Called(before, calls[|calls| - 1].1) else before
  }

  ghost function StatusOf(c: Channel): Status
    reads c
  {
    Status(c.events, c.index)
  }

  /** Any sequence of calls on channels of one poller: each channel ends up as its own calls
      say, and the kernel and the map agree with all of them. */
  method Perform(p: EpollPoller, calls: seq<(Channel, Call)>)
    requires p.Valid() && forall call :: call in calls ==> call.0 in p.users
    modifies p, p.users
    ensures p.Valid() && p.users == old(p.users)
    ensures forall c :: c in p.users ==> StatusOf(c) == AllCalled(old(StatusOf(c)), calls, c)
    ensures forall fd :: fd in p.kernel <==>
              exists c :: c in p.users && c.fd == fd && AllCalled(old(StatusOf(c)), calls, c).index == Added
    ensures forall c :: c in p.users && c.index == Added ==>
              p.kernel[c.fd] == AllCalled(old(StatusOf(c)), calls, c).events
  {
    for i := 0 to |calls|
      invariant p.Valid() && p.users == old(p.users)
      invariant forall c :: c in p.users ==> StatusOf(c) == AllCalled(old(StatusOf(c)), calls[..i], c)
    {
      assert calls[..i + 1][..i] == calls[..i];
      PerformOne(calls[i].0, calls[i].1);
    }
    assert calls[..|calls|] == calls;
    forall fd ensures fd in p.kernel <==> exists c :: c in p.users && c.fd == fd && c.index == Added {
      InterestSet(p, fd);
    }
  }

  method PerformOne(c: Channel, call: Call)
    requires c.InUse()
    modifies c, c.poller
    ensures c.InUse() && c.poller.users == old(c.poller.users)
    ensures StatusOf(c) == Called(old(StatusOf(c)), call)
  {
    if call == EnablesReading || call == EnablesWriting {
      Enable(c, call == EnablesWriting);
    } else if call == DisablesReading || call == DisablesWriting {
      Disable(c, call == DisablesWriting);
    } else if call == DisablesAll {
      c.DisableAll();
    } else {
      c.Remove();
    }
  }

  method Enable(c: Channel, writing: bool)
    requires c.InUse()
    modifies c, c.poller
    ensures c.InUse() && c.poller.users == old(c.poller.users)
    ensures StatusOf(c) == Called(old(StatusOf(c)), if writing then EnablesWriting else EnablesReading)
  {
    if writing {
      c.EnableWriting();
    } else {
      c.EnableReading();
    }
  }

  method Disable(c: Channel, writing: bool)
    requires c.InUse()
    modifies c, c.poller
    ensures c.InUse() && c.poller.users == old(c.poller.users)
    ensures StatusOf(c) == Called(old(StatusOf(c)), if writing then DisablesWriting else DisablesReading)
  {
    if writing {
      c.DisableWriting();
    } else {
      c.DisableReading();
    }
  }

  /** `n` calls of disableAll in a row on the channel `c`. */
  function DisableAlls(c: Channel, n: nat): (calls: seq<(Channel, Call)>)
    ensures |calls| == n && forall call :: call in calls ==> call.0 == c
  {
    if n == 0 then [] else DisableAlls(c, n - 1) + [(c, DisablesAll)]
  }

  /** disableAll takes a registered channel out and registers one that is not, so that calls
      in a row alternate. */
  lemma {:induction false} DisableAllAlternates(st: Status, c: Channel, n: nat)
    ensures var st' := AllCalled(st, DisableAlls(c, n), c);
      (st'.index == Added <==> (st.index == Added) == (n % 2 == 0)) && (n > 0 ==> st'.events == NONE_EVENT)
  {
    if n > 0 {
      var calls := DisableAlls(c, n);
      assert calls[..n - 1] == DisableAlls(c, n - 1);
      DisableAllAlternates(st, c, n - 1);
    }
  }

  /** So a second call registers a channel that was registered: the poller is left with an
      empty interest for it. */
  method DisableAllTimes(c: Channel, n: nat)
    requires c.InUse()
    modifies c.poller, c.poller.users
    ensures c.InUse() && c.poller.users == old(c.poller.users)
    ensures c.index == Added <==> (old(c.index) == Added) == (n % 2 == 0)
    ensures c.fd in c.poller.kernel <==> (old(c.index) == Added) == (n % 2 == 0)
    ensures n > 0 && c.index == Added ==> c.poller.kernel[c.fd] == NONE_EVENT
  {
    ghost var st := StatusOf(c);
    DisableAllAlternates(st, c, n);
    Perform(c.poller, DisableAlls(c, n));
    InterestSet(c.poller, c.fd);
  }
}
