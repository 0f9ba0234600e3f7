/** The accepting side of the server: the admission counter and the accept loop that serves
    one session per accepted connection until the configured number of clients was reached. */
module Listener {

  /** `ServerStatus`: how many clients were serviced, against a maximum where 0 means
      unlimited. */
  class ServerStatus {
    const maxClients: nat
    var serviced: nat

    constructor (maxClients: nat)
      ensures this.maxClients == maxClients && serviced == 0
    {
      this.maxClients := maxClients;
      serviced := 0;
    }

    /** `should_exit`: never with no maximum, otherwise exactly once the count reached it. */
    predicate ShouldExit(): (r: bool)
      reads this
      ensures maxClients == 0 ==> !r
      ensures maxClients != 0 ==> (r <==> serviced >= maxClients)
    {
      if maxClients == 0 then false else serviced >= maxClients
    }

    /** `client_serviced`. */
    method ClientServiced()
      modifies this`serviced
      ensures serviced == old(serviced) + 1
    {
      serviced := serviced + 1;
    }
  }

  /** `TLS_Asio_HTTP_Server`: `started` counts the sessions started, `acceptArmed` says whether
      an `async_accept` is outstanding. */
  class Server {
    const status: ServerStatus
    var started: nat
    var acceptArmed: bool

    /** An accept is outstanding only while the server may take more clients, every
        serviced client was a started session, and the count never passes a non-zero
        maximum. */
    ghost predicate Valid()
      reads this, status
    {
      (acceptArmed ==> !status.ShouldExit())
      && started == status.serviced
      && (status.maxClients != 0 ==> status.serviced <= status.maxClients)
    }

    /** The constructor arms the first accept (`serve_one_session`). */
    constructor (maxClients: nat)
      ensures Valid() && fresh(status) && status.maxClients == maxClients
      ensures status.serviced == 0 && started == 0 && acceptArmed
    {
      status := new ServerStatus(maxClients);
      started := 0;
      acceptArmed := true;
    }

    /** `handle_accept` for the outstanding accept. On success the session is started and
        counted, and the next accept is armed unless the server should now exit; on error,
        nothing is started or counted and no accept is armed again, so the server takes no
        further clients. */
    method HandleAccept(error: bool)
      requires Valid() && acceptArmed
      modifies this`started, this`acceptArmed, status`serviced
      ensures Valid()
      ensures error ==> started == old(started) && status.serviced == old(status.serviced) && !acceptArmed
      ensures !error ==> started == old(started) + 1 && status.serviced == old(status.serviced) + 1
      ensures !error ==> (acceptArmed <==> !status.ShouldExit())
    {
      acceptArmed := false;
      if !error {
        started := started + 1;
        status.ClientServiced();
        if !status.ShouldExit() {
          acceptArmed := true;
        }
      }
    }
  }

  /** `k` successful accepts on a fresh server: each one finds the accept armed, exactly `k`
      clients are counted, and the accept is armed again exactly when the maximum is 0 or has
      not been reached. */
  method AdmitMany(maxClients: nat, k: nat) returns (armed: bool, serviced: nat)
    requires maxClients == 0 || k <= maxClients
    ensures serviced == k
    ensures armed <==> (maxClients == 0 || k < maxClients)
  {
    var server := new Server(maxClients);
    var i := 0;
    while i < k
      invariant 0 <= i <= k
      invariant server.Valid() && server.status.maxClients == maxClients
      invariant server.status.serviced == i
      invariant server.acceptArmed <==> (maxClients == 0 || i < maxClients)
    {
      server.HandleAccept(false);
      i := i + 1;
    }
    armed, serviced := server.acceptArmed, server.status.serviced;
  }

  /** With at most two clients the first accept re-arms and the second does not; on a server
      without a maximum, a failed accept neither counts nor re-arms. */
  method AdmitTwo() returns (armedAfterFirst: bool, armedAfterSecond: bool, countAfterSecond: nat, armedAfterFailure: bool)
    ensures armedAfterFirst && !armedAfterSecond && countAfterSecond == 2 && !armedAfterFailure
  {
    var server := new Server(2);
    server.HandleAccept(false);
    armedAfterFirst := server.acceptArmed;
    server.HandleAccept(false);
    armedAfterSecond := server.acceptArmed;
    countAfterSecond := server.status.serviced;
    var other := new Server(0);
    other.HandleAccept(true);
    armedAfterFailure := other.acceptArmed;
  }
}
