# A verified model of the socket layer

This project models the socket layer of RMDGP (`socketLib/`) in Dafny 4.11 and proves properties of
it. `dafny verify dfyconfig.toml` checks everything.

Every call of the socket layer into the operating system goes through one proxy. The model replaces
that proxy by the class `Kernel.Os`, whose answers come from oracles: functions from "which call is
this" to "what does it answer", about which the proofs assume nothing. A statement that holds for all
oracles holds for any errno from any call, any datagrams in any order, any normalised clock readings,
any interfaces, and any mask that `pselect` leaves behind. What a call does to the state of the OS is
fixed by the model; in particular, a close that reports an error has not closed (see "Left out").

| file | models |
|---|---|
| `Times.dfy` | `CTime`: second/nanosecond arithmetic in 64-bit integers, in place, with aliasing |
| `Kernel.dfy` | the OS: open descriptors with their options, binding and memberships, interface lists, streams of answers |
| `Masks.dfy` | the subnet test of `CInterfaces`, bit by bit and on prefixes |
| `Interfaces.dfy` | `CInterfaces`: walks over the linked list of `getifaddrs`, and the search for a private network |
| `Filter.dfy` | what a receiver should deliver, and why a run of `receive` calls delivers that |
| `Sockets.dfy` | `CFileDescriptor` and `CUdpSocket` |
| `Receivers.dfy` | `CUdpMulticastReceiver`: `open`, the copy constructor, `receive` |
| `Waiters.dfy` | `CFdWaiter`: `select`, `waitUntil` and the length of a wait |
| `Ownership.dfy` | who owns the open descriptors and what each receiver delivers, over any interleaving of operations on any objects |
| `Processes.dfy` | the same interleavings as calls of the methods on objects in memory |

An object that the source updates in place is a class, and its methods are proved against functions
on values: `...Effect` functions for operations that change descriptors, `Fill` and `Outcome` for
receiving, `Sum`, `Difference` and `Scaled` for times. The theorems are about those functions, and
what a caller relies on is stated on the data themselves, without the functions that the methods
share with their specification (`CallsEndExactlyAt`, `Concluded`, `AreHeldBy`, `SameSubnet`,
`Diagnosis`). A method that throws in the source returns `None` for a normal return and `Some(error)`
for the exception, or a `Result`.

## Main results

* **Filtering.** Over any number of `receive` calls after an `open`, the delivered datagrams are
  exactly the wanted events of the consumed stretch of the stream, in order and once each, where
  "wanted" is defined without state or loops (`Wanted`). Every consumed event has one fate. The three
  nested retry loops terminate whenever the stream has an event that stops them. This holds for each
  receiver on its own, however its calls are interleaved with those of other objects.
* **Waiting.** A wait ends at the first round that stops, with the verdict of that round; every
  `pselect` gets exactly the open registered descriptors, the least `nfds` above them, and a
  positive timeout that ends at the requested moment, normalised if that moment is. If the clock advances during each
  select, the wait ends, and it makes at most one select per nanosecond that was left. If instead a 0
  result comes only after the whole timeout, it makes at most one select more than signals interrupted.
* **Opening.** `open` and the copy constructor make a fixed script of system calls; they return
  normally if and only if all succeed, with exactly the right options, binding and memberships, and
  otherwise throw the errno of the first that failed. The subnet test behind the choice of an
  interface compares exactly the bits of the mask.
* **Time.** Normalised times are the ordered group of the integers, and multiplication is exact, with
  the exact condition under which all its intermediate results stay within 64 bits.
* **Ownership.** Over any interleaving of operations, the open descriptors are the disjoint union of
  those that live objects hold and those whose close failed in a destructor. Interface lists are
  freed exactly once on every exit. A simulation carries this to the `fd` fields of the objects in
  memory (`Processes.Execute`). Whatever ran before, a wait on live objects selects on
  descriptors that are open in the OS, and on no others.

## Where the code does not do what is written about it

* `open` closes the socket before it throws (tests require it), except when the interface query
  throws: that exception passes through and leaves an open socket without memberships
  (`FailedOpenMayStayOpen`). If closes succeed, this is the only case
  (`FailedOpenStaysOpenIffTheQueryThrew`).
* With source port -1 "the port number of the first message will be used to filter"
  (`socketLib/CUdpMulticastReceiver.h:57-58`). If that port is 0, the filter is switched off instead
  (`FirstPortIsPinnedUnlessZero`, `PortZeroIsNotPinned`).
* A configured port other than 0 and -1 is documented to be the one that datagrams must come from
  (`socketLib/CUdpMulticastReceiver.h:55-57`). This is so exactly if it lies between 1 and 65535
  (`PortFilterIsExactForPortNumbers`). A positive port is compared modulo 2^16 (`PortFilterIsModulo`), so
  every larger one lets another port through (`LargePortLetsAnotherPass`, `LargePortExample`). A port
  below -1 switches the filter off (`NegativePortLetsEveryPortPass`, `NegativePortExample`).
* A result of 0 "indicates there is no message available" (`socketLib/CUdpMulticastReceiver.h:71`). An
  empty datagram gives 0 too (`ZeroIsAmbiguousForEmptyDatagrams`, `EmptyDatagramLooksLikeNoMessage`).
* `waitUntil` returns "true if moment is passed" (`socketLib/CFdWaiter.h:57`). It also returns true 1 ns
  early (`ExpiryMayBeEarly`, `EarlyExpiry`), and for a moment that is not normalised, whose fields are
  public, as soon as the seconds of the clock exceed those of the moment
  (`UnnormalisedMomentExpiresEarly`). `ExpiryIsPunctualIff` says for which moments it is no more than
  1 ns early. A caller who adds one nanosecond with `operator+`, which normalises excess nanoseconds,
  gets the documented meaning exactly (`WaitingOneNanosecondMoreIsExact`).
* `getAPrivateNetworkInterface` asks for the interfaces up to three times, so its result is about
  three snapshots (`SearchIsExact`). It finds nothing exactly when each query comes back without an
  address in its own block (`SearchFindsNothingIff`), which may happen although there was a private
  address at each of them (`ChangingAddressIsMissed`). If the three snapshots agree, the result is
  right (`PrivateInterfaceOnAStableNetwork`).
* `IP_MULTICAST_ALL` is set at level `SOL_SOCKET` and not at `IPPROTO_IP`
  (`socketLib/CUdpMulticastReceiver.cpp:136`). The option of level `IPPROTO_IP` is never set
  (`MulticastAllIsNeverSet`).
* `operator*` stays within 64 bits on exactly the inputs of `ScalingFits` (`ScalingFitsIsExact`): both
  products and the result must fit, and the term `-nanosecs + nsecInSec - 1` needs room for
  `-nanosecs + nsecInSec`. The result alone may be what does not fit (`ScalingCanOverflow`).

## Model

| member | source | states |
|---|---|---|
| Times.Time.constructor | socketLib/CTime.cpp:37-42 | for every seconds and nanoseconds whose normal form fits, the object is that normal form; nothing overflows |
| Times.Time.Zero | socketLib/CTime.cpp:31-35 | the default time is 0 |
| Times.Time.Copy | socketLib/CTime.cpp:44-48 | a copy has the same value |
| Times.Time.Assign | socketLib/CTime.cpp:135-141 | assignment takes over the other value, also from itself |
| Times.Time.EnforceNsecRange | socketLib/CTime.cpp:163-175 | the carry loops end for every nanosecond count in the floor-division normal form of the total |
| Times.Time.Minus | socketLib/CTime.cpp:54-67 | a fresh difference with negative nanoseconds repaid; both operands unchanged |
| Times.Time.SubtractAssign | socketLib/CTime.cpp:69-80 | leaves what operator- gives, also when the argument is the receiver |
| Times.Time.Plus | socketLib/CTime.cpp:82-95 | a fresh sum with excess nanoseconds carried; both operands unchanged |
| Times.Time.AddAssign | socketLib/CTime.cpp:120-133 | leaves what operator+ gives, also when the argument is the receiver |
| Times.Time.Multiply | socketLib/CTime.cpp:97-118 | all three branches give the normal form of total times count, without overflow of any intermediate |
| Times.Time.Equals | socketLib/CTime.cpp:143-146 | equality of values |
| Times.Time.NotEquals | socketLib/CTime.cpp:148-151 | negation of == |
| Times.Time.GreaterThan | socketLib/CTime.cpp:153-156 | for normalised times, the converse of the order of totals |
| Times.Time.LessThan | socketLib/CTime.cpp:158-161 | for normalised times, the order of totals; for all, the converse of > |
| Times.CorrectionIsExact | socketLib/CTime.cpp:103-115 | both corrections of operator*, one through a ceiling, amount to floor division |
| Times.ScalingFitsIsExact | socketLib/CTime.cpp:100-115 | every intermediate result of operator* fits in 64 bits if and only if four conditions on the operands hold |
| Times.ScalingCanOverflow | socketLib/CTime.cpp:100-115 | a concrete time and count on which only the final carry overflows |
| Times.ScalingNeverOverflows | socketLib/CTime.cpp:100-115 | a normalised time below 2^32 seconds may be multiplied by every 32-bit count |
| Times.NormalFormIsUnique | socketLib/CTime.cpp:163-175 | normalised times and integers are in bijection |
| Times.OperatorsAreExact | socketLib/CTime.cpp:54-95 | sums and differences preserve totals on all inputs, and normalise exactly when the raw nanoseconds are on the side that the loop handles |
| Times.OtherwiseFieldwise | socketLib/CTime.cpp:54-95 | where no loop has to run, both are fieldwise |
| Times.NormalStampsFormAGroup | socketLib/CTime.cpp:54-95 | normalised times form an abelian group; t += t doubles and t -= t gives 0 |
| Times.NormalStampsAreOrdered | socketLib/CTime.cpp:153-161 | the comparison is a total order, agrees with totals, and addition is monotone in it |
| Times.ScalingDistributes | socketLib/CTime.cpp:97-118 | multiplication distributes over sums and differences, of counts and of times |
| Times.ScalingComposes | socketLib/CTime.cpp:97-118 | multiplying twice is multiplying by the product; 1 is neutral |
| Kernel.NtohsInvertsHtons | socketLib/CUdpMulticastReceiver.cpp:163-182 | ntohs undoes htons up to truncation to 16 bits, and htons undoes ntohs |
| Kernel.Os.Recvfrom | socketLib/CSocketProxy.cpp:63-67 | one call takes the next event of its descriptor, deposits a truncated datagram, and leaves other streams alone |
| Kernel.Os.Freeifaddrs | socketLib/CSocketProxy.cpp:96-99 | may only be called for a list that is still handed out |
| Masks.MatchesIsBitwise | socketLib/CInterfaces.cpp:92 | the subnet test compares exactly the bits that are set in the mask, of all 32, for any mask |
| Masks.PrefixesAreCompared | socketLib/CInterfaces.cpp:92 | with a mask of p leading ones it compares the first p bits in host byte order |
| Interfaces.LessOnOctets | socketLib/CInterfaces.cpp:146-147 | the order of the set, octet by octet: the last octet counts most |
| Interfaces.AscendingFacts | socketLib/CInterfaces.cpp:146-147 | begin() of a std::set is its least element and no element occurs twice |
| Interfaces.CollectIsExact | socketLib/CInterfaces.cpp:106-132 | the walk gathers exactly the IPv4 addresses in the list that agree with the given one on every bit of the mask, as a set |
| Interfaces.FirstOnSubnetIsFirst | socketLib/CInterfaces.cpp:74-104 | the address of the first entry that agrees with the given one on every bit of its own mask, INADDR_ANY if there is none |
| Interfaces.NothingOnSubnetIff | socketLib/CInterfaces.cpp:74-104 | if no interface has the address 0.0.0.0, the result is INADDR_ANY if and only if the address is on the subnet of no entry |
| Interfaces.NeighbourIsNotTaken | socketLib/CInterfaces.cpp:92-97 | of two neighbouring /24 networks, the one of the address is chosen |
| Interfaces.SubnetQueryIsExact | socketLib/CInterfaces.cpp:74-104 | the first interface on whose subnet the address lies, bit by bit, INADDR_ANY if none, or the errno of getifaddrs |
| Interfaces.AddressQueryIsExact | socketLib/CInterfaces.cpp:106-132 | exactly the interface addresses that agree on the bits of the mask, or the errno of getifaddrs |
| Interfaces.ScopedIfaddr.constructor | socketLib/CInterfaces.cpp:42-52 | obtains the list, or throws and holds nothing |
| Interfaces.ScopedIfaddr.Destroy | socketLib/CInterfaces.cpp:53 | frees the list it holds, and only that |
| Interfaces.RetrieveInterfaceAddressFromAddress | socketLib/CInterfaces.cpp:74-104 | the first interface on the subnet, or the exception; on every exit each obtained list is freed once |
| Interfaces.GetIpV4InterfaceAddressesMatching | socketLib/CInterfaces.cpp:106-132 | the matching addresses, or the exception; on every exit each obtained list is freed once |
| Interfaces.GetIpV4InterfaceAddresses | socketLib/CInterfaces.cpp:134-139 | the query without a mask |
| Interfaces.UnmaskedQueryReturnsEveryAddress | socketLib/CInterfaces.cpp:134-139 | without a mask every IPv4 interface address is returned, each once |
| Interfaces.GetAPrivateNetworkInterface | socketLib/CInterfaces.cpp:141-162 | performs the search over the three blocks in order of preference |
| Interfaces.BlocksAreRfc1918Ranges | socketLib/CInterfaces.cpp:143-157 | the mask tests in network order are the host-order ranges of RFC 1918, section 3 |
| Interfaces.SearchIsExact | socketLib/CInterfaces.cpp:141-162 | the search ends at the first query that throws or finds something, with the least address found; no list is left over |
| Interfaces.PrivateInterfaceOnAStableNetwork | socketLib/CInterfaces.cpp:141-162 | if the up to three queries of the search see the same interfaces: an existing address in the first RFC 1918 range that has one; INADDR_ANY iff none has one |
| Interfaces.SearchFindsNothingIff | socketLib/CInterfaces.cpp:141-162 | INADDR_ANY if and only if each of the three queries succeeds and finds no address in its own block |
| Interfaces.ChangingAddressIsMissed | socketLib/CInterfaces.cpp:141-162 | a concrete network that has a private address at every query and for which the search finds none |
| Filter.ConcludesWithTheOutcome | socketLib/CUdpMulticastReceiver.cpp:165-185 | would-block becomes 0, other errors are thrown, a datagram gives its truncated length |
| Filter.AcceptsWhatStops | socketLib/CUdpMulticastReceiver.cpp:160-163 | the three loop conditions together reject exactly the events that do not stop the call |
| Filter.CallEnds | socketLib/CUdpMulticastReceiver.cpp:153-185 | an accepted answer is that of the first stopping event: its outcome, its latch, and a delivered datagram at the start of the buffer |
| Filter.FirstStopMeans | socketLib/CUdpMulticastReceiver.cpp:153-163 | everything before the event that stops a call is an EINTR or a datagram from another address or port; that event is neither |
| Filter.OutcomeMeans | socketLib/CUdpMulticastReceiver.cpp:165-185 | a datagram gives the minimum of its length and the buffer size, would-block 0, any other error its own errno |
| Filter.BufferStartsWithTheLastDatagram | socketLib/CUdpMulticastReceiver.h:65-69 | after a delivery the buffer starts with the delivered datagram, whatever longer ones were rejected; when a call would block, with the last rejected one |
| Filter.BufferTailIsKept | socketLib/CUdpMulticastReceiver.cpp:153-163 | bytes beyond every datagram read keep their value |
| Filter.PortAfterARun | socketLib/CUdpMulticastReceiver.cpp:180-183 | the port filter after a run: the configured one, or in mode -1 that of the first datagram from the right address |
| Filter.FilterAgrees | socketLib/CUdpMulticastReceiver.cpp:153-163 | during a call the stateful filter accepts exactly what the reference wants |
| Filter.RunDeliversTheFilteredStream | socketLib/CUdpMulticastReceiver.cpp:143-186 | any run delivers exactly the wanted events it consumed, once each and in order |
| Filter.RunAccountsForEveryEvent | socketLib/CUdpMulticastReceiver.cpp:153-183 | every consumed event has one fate; exactly the returned, would-block and raised ones end a call, each one call |
| Filter.CallsEndExactlyAt | socketLib/CUdpMulticastReceiver.h:50-57 | with a port other than -1, the calls of a run end exactly at the datagrams from the configured address and port and at the errors other than EINTR |
| Filter.CallsEndExactlyAtFirstPort | socketLib/CUdpMulticastReceiver.h:57-58 | with port -1, exactly at the datagrams from the configured address and the port of the first, or any port if that is 0, and at the errors |
| Filter.DeliveredAreTheDatagrams | socketLib/CUdpMulticastReceiver.cpp:143-186 | the datagrams among those events are what is delivered, in stream order |
| Filter.OnlyTheSourceIsDelivered | socketLib/CUdpMulticastReceiver.h:50-54 | nothing from another sender is delivered, and without a port filter everything from the configured one is |
| Filter.OtherSenderIsRejected | socketLib/CUdpMulticastReceiver.cpp:161-162 | a concrete datagram from another sender, which the call reads past |
| Filter.PortFilterIsModulo | socketLib/CUdpMulticastReceiver.cpp:163 | a positive port is compared modulo 2^16 with the sender's port |
| Filter.PortFilterIsExactForPortNumbers | socketLib/CUdpMulticastReceiver.h:55-57 | a port other than 0 and -1 selects exactly the datagrams from that port if and only if it lies between 1 and 65535 |
| Filter.LargePortLetsAnotherPass | socketLib/CUdpMulticastReceiver.cpp:163 | for every port from 65536 on, a datagram from another port passes |
| Filter.LargePortExample | socketLib/CUdpMulticastReceiver.cpp:163 | port 72536 lets port 7000 pass |
| Filter.NegativePortLetsEveryPortPass | socketLib/CUdpMulticastReceiver.cpp:163 | with a port below -1 every datagram passes, and the filter stays off |
| Filter.NegativePortExample | socketLib/CUdpMulticastReceiver.cpp:163 | port -2 lets port 7000 pass |
| Filter.FirstPortIsPinnedUnlessZero | socketLib/CUdpMulticastReceiver.h:57-58 | in mode -1 the filter becomes that of the first port if and only if that is not 0 |
| Filter.RunKeepsTheFirstPort | socketLib/CUdpMulticastReceiver.h:57-58 | if the first port is not 0, everything a run delivers has it |
| Filter.PortZeroIsNotPinned | socketLib/CUdpMulticastReceiver.cpp:180-183 | a concrete first port 0, after which another port passes |
| Filter.ZeroIsAmbiguousForEmptyDatagrams | socketLib/CUdpMulticastReceiver.h:70-71 | a message gives 0 exactly when it or the buffer is empty |
| Filter.EmptyDatagramLooksLikeNoMessage | socketLib/CUdpMulticastReceiver.h:70-71 | a concrete message and a would-block that give the caller the same |
| Sockets.CloseTransfers | socketLib/CUdpSocket.cpp:127-137 | a close gives up the descriptor, or throws and keeps it open and owned |
| Sockets.OpenSocketTransfers | socketLib/CUdpSocket.cpp:109-125 | replaces the old descriptor by a new socket, or keeps the old one if it cannot be closed, or ends closed |
| Sockets.BindTransfers | socketLib/CUdpSocket.cpp:65-77 | binds to the address and port, or closes the socket and throws |
| Sockets.DestroyReleases | socketLib/CFileDescriptor.cpp:38-42 | the destructor of a closed object does nothing, that of an open one releases the descriptor unless its close fails |
| Sockets.CloseAndBindDiagnose | socketLib/CUdpSocket.cpp:65-77 | a close or bind that fails throws the errno of that call, and after a failed bind that of the close too if it failed |
| Sockets.OpenSocketDiagnoses | socketLib/CUdpSocket.cpp:109-125 | openUdpSocket throws the errno of the first of its calls that failed |
| Sockets.ClosedSocketDiagnoses | socketLib/CUdpSocket.cpp:127-137 | without a descriptor, close and bind always throw |
| Sockets.AnswerIsReceived | socketLib/CUdpSocket.cpp:173-194 | the first answer other than EINTR gives the result and the sender |
| Sockets.UdpSocket.constructor | socketLib/CFileDescriptor.cpp:30-32 | a new object holds nothing |
| Sockets.UdpSocket.Destroy | socketLib/CFileDescriptor.cpp:38-42 | performs the effect of the destructor |
| Sockets.UdpSocket.CloseUdpSocket | socketLib/CUdpSocket.cpp:127-137 | performs the effect of a close |
| Sockets.UdpSocket.CloseAndThrowRuntimeException | socketLib/CUdpSocket.cpp:197-212 | always throws, with the errno from before the close, and mentions a failed close |
| Sockets.UdpSocket.OpenUdpSocket | socketLib/CUdpSocket.cpp:109-125 | performs the effect of an open |
| Sockets.UdpSocket.Bind | socketLib/CUdpSocket.cpp:65-77 | performs the effect of a bind |
| Sockets.UdpSocket.SendTo | socketLib/CUdpSocket.cpp:139-165 | sends the same message again on EINTR only, and concludes from the first other answer |
| Sockets.UdpSocket.RecvUninterrupted | socketLib/CUdpSocket.cpp:173-176 | the EINTR loop ends at the first other answer, wherever it is nested |
| Sockets.UdpSocket.ReceiveFrom | socketLib/CUdpSocket.cpp:167-195 | a receive without filter: outcome, sender and buffer are those of the first event that is not an EINTR |
| Receivers.OptionTransfers | socketLib/CUdpMulticastReceiver.cpp:94-97 | sets one option, or closes the socket and throws |
| Receivers.JoinTransfers | socketLib/CUdpMulticastReceiver.cpp:119-131 | joins on all interfaces in order, or closes the socket and throws; if the OS refuses to close it, a prefix of the memberships is left |
| Receivers.QueryGivesTheInterfaces | socketLib/CUdpMulticastReceiver.cpp:106-117 | all IPv4 interfaces for INADDR_ANY, else the one on the source's subnet |
| Receivers.ConfigureTransfers | socketLib/CUdpMulticastReceiver.cpp:91-140 | after the socket is there: complete set-up, or which failure leaves what |
| Receivers.OpenTransfers | socketLib/CUdpMulticastReceiver.cpp:80-141 | normal return: a new socket with exactly the right options, binding and memberships, each joined once; no other descriptor changes on any exit |
| Receivers.OpenSucceedsIff | socketLib/CUdpMulticastReceiver.cpp:80-141 | open returns normally if and only if each system call that this open makes succeeds |
| Receivers.OpenSaysWhatFailed | socketLib/CUdpMulticastReceiver.cpp:80-141 | open makes its system calls in a fixed order and throws what the first failing one was for, its errno, and that of a failed close |
| Receivers.FailedOpen | socketLib/CUdpMulticastReceiver.cpp:80-141 | where each failure leaves the descriptor; no partial membership survives unless the OS refuses to close |
| Receivers.FailedOpenStaysOpenIffTheQueryThrew | socketLib/CUdpMulticastReceiver.cpp:106-117 | if the closes of this open succeed, a throwing open leaves the socket open exactly when the interface query threw |
| Receivers.FailedOpenMayStayOpen | socketLib/CUdpMulticastReceiver.cpp:106-117 | a concrete environment in which it does |
| Receivers.MulticastAllIsNeverSet | socketLib/CUdpMulticastReceiver.cpp:133-140 | after a normal open the socket does not have IP_MULTICAST_ALL of level IPPROTO_IP set |
| Receivers.CopyTransfers | socketLib/CUdpMulticastReceiver.cpp:46-65 | a copy owns a descriptor of its own, configured like the original; a throwing copy leaks nothing unless one of its closes fails |
| Receivers.CopySucceedsIff | socketLib/CUdpMulticastReceiver.cpp:46-65 | a copy returns normally if and only if the original is closed or every call of the new open succeeds; else it throws what that open throws |
| Receivers.UdpMulticastReceiver.constructor | socketLib/CUdpMulticastReceiver.cpp:39-44 | a new receiver is closed and unconfigured |
| Receivers.UdpMulticastReceiver.Copy | socketLib/CUdpMulticastReceiver.cpp:46-65 | performs the effect of the copy constructor and leaves the original as it is |
| Receivers.UdpMulticastReceiver.Open | socketLib/CUdpMulticastReceiver.cpp:80-141 | performs the effect of open, stores the configuration first, and starts a new run |
| Receivers.UdpMulticastReceiver.JoinOn | socketLib/CUdpMulticastReceiver.cpp:119-131 | the loop over the interfaces performs the joins in order |
| Receivers.UdpMulticastReceiver.RecvFromSource | socketLib/CUdpMulticastReceiver.cpp:154-162 | the middle loop ends at the first answer that is an error or comes from the right address |
| Receivers.UdpMulticastReceiver.RecvAccepted | socketLib/CUdpMulticastReceiver.cpp:152-163 | the nested loops end at the first event that stops the call, having deposited all before it |
| Receivers.CallIsReceived | socketLib/CUdpMulticastReceiver.cpp:165-185 | what receive does with its last answer gives the outcome, latch and buffer of the first stopping event |
| Receivers.UdpMulticastReceiver.ReceiveAndLatch | socketLib/CUdpMulticastReceiver.cpp:143-186 | the code of receive: its outcome, buffer and latch, whatever was done with the object before |
| Receivers.UdpMulticastReceiver.Receive | socketLib/CUdpMulticastReceiver.cpp:143-186 | outcome, buffer and latched port are those of the first event that is neither an EINTR nor from a wrong address or port, with a delivered datagram at the start of the caller's buffer; if the calls so far formed a run, they still do |
| Receivers.UdpMulticastReceiver.DeliveredSoFar | socketLib/CUdpMulticastReceiver.cpp:143-186 | at any time, the object has delivered exactly the wanted events since its last open |
| Waiters.LeastAbove | socketLib/CFdWaiter.cpp:48-75 | raising nfds past each descriptor gives the least number above all of them |
| Waiters.RemainingTimeFits | socketLib/CFdWaiter.cpp:82-87 | for a moment that need not be normalised: the remaining time is exact, fits, is normalised iff no excess nanoseconds remain, and the loop goes on iff more than 1 ns is left and the seconds of the clock do not exceed those of the moment |
| Waiters.IsWaitableIff | socketLib/CFdWaiter.cpp:85-104 | the moments for which no subtraction of the wait overflows, whatever the clock reads |
| Waiters.RoundIsLogged | socketLib/CFdWaiter.cpp:87-106 | a select of a wait has a positive timeout that ends at the moment |
| Waiters.EndedMeans | socketLib/CFdWaiter.cpp:80-108 | in all rounds but the last, time was left and pselect gave 0 or an EINTR; the last gives true without time, false with a ready descriptor, and else throws the errno of the clock or of pselect |
| Waiters.AdvancingClockEndsTheWait | socketLib/CFdWaiter.cpp:84-106 | if the clock advances during the selects of the wait, the wait ends after no more selects than nanoseconds were left |
| Waiters.SelectsAreBoundedByInterrupts | socketLib/CFdWaiter.cpp:87-106 | if a 0 result within the wait takes the whole timeout, at most one select more than the interrupted ones |
| Waiters.SelectsAreBounded | socketLib/CFdWaiter.cpp:84-106 | both bounds for any wait that ends |
| Waiters.ExpiryMayBeEarly | socketLib/CFdWaiter.h:57 | for every moment, true exactly when the code takes it to have come; for a normalised one, exactly from 1 ns before the moment on |
| Waiters.ExpiryIsPunctualIff | socketLib/CFdWaiter.cpp:84-87 | which moments, normalised or not, never expire more than 1 ns early |
| Waiters.WaitingOneNanosecondMoreIsExact | socketLib/CFdWaiter.h:57 | a wait for one nanosecond after any moment gives true if and only if the last reading is at or after the moment |
| Waiters.EarlyExpiry | socketLib/CFdWaiter.cpp:82-87 | a concrete wait that expires early |
| Waiters.UnnormalisedMomentExpiresEarly | socketLib/CFdWaiter.cpp:84-87 | a concrete moment with excess nanoseconds that expires a second early |
| Waiters.FdWaiter.AddReadFileDescriptor | socketLib/CFdWaiter.cpp:110-113 | adds to the readers and changes nothing else |
| Waiters.FdWaiter.DelReadFileDescriptor | socketLib/CFdWaiter.cpp:115-118 | removes from the readers and changes nothing else |
| Waiters.FdWaiter.AddWriteFileDescriptor | socketLib/CFdWaiter.cpp:120-123 | adds to the writers and changes nothing else |
| Waiters.FdWaiter.DelWriteFileDescriptor | socketLib/CFdWaiter.cpp:125-128 | removes from the writers and changes nothing else |
| Waiters.FdWaiter.Collect | socketLib/CFdWaiter.cpp:51-62 | in whatever order the set is walked, the mask holds exactly the open descriptors |
| Waiters.FdWaiter.OpenFdsAreHeld | socketLib/CFdWaiter.cpp:51-62 | a descriptor is in the mask exactly if some registered object holds it |
| Waiters.FdWaiter.FillMasks | socketLib/CFdWaiter.cpp:48-75 | fills both masks and finds the least nfds above them |
| Waiters.FdWaiter.Select | socketLib/CFdWaiter.cpp:46-78 | passes exactly the descriptors that registered objects hold and the least nfds, whatever earlier calls left in the masks |
| Waiters.FdWaiter.WaitUntil | socketLib/CFdWaiter.cpp:80-108 | for any moment, normalised or not: ends at the first stopping round, with true, false or the exception as the answers of that round say; every select on the way had the right masks, nfds and timeout; both bounds on their number |
| Ownership.TransferKeepsOwnership | socketLib/CUdpSocket.cpp:109-137 | an operation that only replaces its own descriptor keeps the ownership invariant |
| Ownership.RunsKeepOwnership | socketLib/CUdpSocket.cpp:109-137 | over any interleaving, the open descriptors are the disjoint union of held and lost ones |
| Ownership.NothingIsLostIfClosesSucceed | socketLib/CFileDescriptor.cpp:38-42 | no descriptor is lost if the closes of the run succeed |
| Ownership.NothingLeaks | socketLib/CFileDescriptor.cpp:38-42 | when all objects are destroyed, exactly the lost descriptors are open; none if the closes of the run succeed |
| Ownership.EachReceiverDeliversItsStream | socketLib/CUdpMulticastReceiver.cpp:143-186 | after any interleaving, each receiver that kept the socket of its last open has it to itself and has delivered exactly the wanted events of its stream since it was opened |
| Ownership.HistoryIsTheCalls | socketLib/CUdpMulticastReceiver.cpp:143-186 | while only receive is called on an open receiver, its history consists of exactly those calls, whatever happens to other objects |
| Ownership.OpenedReceiverDelivers | socketLib/CUdpMulticastReceiver.cpp:80-186 | after an open that returned normally, the receive calls deliver exactly the wanted events from there on, under any interleaving with other objects |
| Ownership.CopiedReceiverDelivers | socketLib/CUdpMulticastReceiver.cpp:46-65 | so do the receive calls of a copy, with the filters that the original has by then |
| Ownership.WaitsSelectOpenDescriptors | socketLib/CFdWaiter.h:58-59 | after any run, every select of a wait on live objects gets exactly their descriptors, all open |
| Processes.CallReceive | socketLib/CUdpMulticastReceiver.cpp:143-186 | a call of receive changes its receiver and its stream as the step says |
| Processes.Perform | socketLib/CUdpMulticastReceiver.h:39-72 | each call of a method on an object in memory is the corresponding step, with all other objects unchanged |
| Processes.Execute | socketLib/CUdpMulticastReceiver.h:39-72 | after any possible sequence of calls, the objects in memory and the OS are those of the run |
| Processes.RepresentedObjects | socketLib/CFileDescriptor.cpp:38-42 | then the fd fields are distinct open descriptors, no others are open but the lost ones, and each receiver with a history is valid |
| Processes.ObjectsAreLive | socketLib/CFdWaiter.cpp:110-123 | then a wait on any of these objects is a wait on live ones |

## Left out

- The reliability protocol itself (acknowledgement, retransmission, slow receivers): it is described but not written.
- `CUdpMulticastSender`: its `send` is `sendTo` again and its `open` a short part of the receiver's.
- `setSocketProxy`: there is one OS, which every object keeps for life.
- `setNonBlocking` and the `getLocal...` queries: one or two system calls without state of the object.
- Message texts: an exception is what failed, its errno, and the errno of a failed close.
- `inet_addr` and the string overload of `open`: addresses are given as octets.
- Inheritance: `CFileDescriptor` and `CUdpSocket` are one class, and a receiver has its base class subobject as a field.
- Descriptors at or above FD_SETSIZE: `Select` requires that there are none, because `FD_SET` is undefined for them.
- IPv4 interface entries without a netmask: every `Inet` entry has one.
- Byte order: `std::set<in_addr_t>` is ordered as on a little-endian machine; only the choice between several addresses in one block depends on it.
- A close that reports an error but releases the descriptor all the same, as Linux does for EINTR: in the model it stays open.
- The clock: a reading is normalised, not negative, and below 2^62 seconds; its distance to the moment fits in 64 bits (`IsWaitable`).
- Waiters.FdWaiter.WaitUntil: requires that some round stops, because the source does not return otherwise; `AdvancingClockEndsTheWait` shows that one does if the clock advances.
- Receivers.UdpMulticastReceiver.Receive: requires that some event stops the call, because the source does not return otherwise; one stream of answers belongs to each descriptor number.
- The destruction of a descriptor object that is still registered with a waiter.
