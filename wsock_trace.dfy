/**
 * The bookkeeping of the Winsock tracing layer: the `WSAStartup` /
 * `WSACleanup` reference count, the traffic counters the `recv`, `recvfrom`,
 * `send`, `sendto`, `WSASend` and `WSASendTo` shims update, and the small
 * formatters the trace lines are built from (pointer and socket values,
 * socket addresses with their port, the `WSAIoctl` direction tag and the
 * `WSAWaitForMultipleEvents` result label).
 */
module WsockTrace {
  import opened Common

  // ------------------------------------------------ WSAStartup / WSACleanup

  /** The globals `startup_count` and `cleaned_up`. */
  class StartupState {
    var startupCount: int
    var cleanedUp: bool

    ghost predicate Valid()
      reads this
    {
      0 <= startupCount <= INT_MAX && (cleanedUp ==> startupCount == 0)
    }

    constructor ()
      ensures Valid() && startupCount == 0 && !cleanedUp
    {
      startupCount := 0;
      cleanedUp := false;
    }

    /** The bookkeeping after the real `WSAStartup` returns, whatever it returned. */
    method Startup()
      requires Valid()
      modifies this
      ensures Valid()
      ensures startupCount == StartupCount(old(startupCount))
      ensures !cleanedUp
    {
      if startupCount < INT_MAX {
        startupCount := startupCount + 1;
      }
      cleanedUp := false;
    }

    /** The bookkeeping after the real `WSACleanup` returns. */
    method Cleanup()
      requires Valid()
      modifies this
      ensures Valid()
      ensures startupCount == CleanupCount(old(startupCount))
      ensures old(startupCount) > 0 ==> cleanedUp == (startupCount == 0)
      ensures old(startupCount) == 0 ==> cleanedUp == old(cleanedUp)
    {
      if startupCount > 0 {
        startupCount := startupCount - 1;
        cleanedUp := startupCount == 0;
      }
    }
  }

  /** `startup_count` after one startup: one more, saturating at `INT_MAX`. */
  function StartupCount(n: int): (r: int)
    requires 0 <= n <= INT_MAX
    ensures 0 <= r <= INT_MAX && n <= r <= n + 1
    ensures r == n <==> n == INT_MAX
  {
    if n < INT_MAX then n + 1 else n
  }

  /** `startup_count` after one cleanup: one less, never below 0. */
  function CleanupCount(n: int): (r: int)
    requires 0 <= n <= INT_MAX
    ensures 0 <= r <= INT_MAX && n - 1 <= r <= n
    ensures r == n <==> n == 0
  {
    if n > 0 then n - 1 else n
  }

  /** `k` startups from `n`. */
  function Startups(n: int, k: nat): (r: int)
    requires 0 <= n <= INT_MAX
    ensures 0 <= r <= INT_MAX
    decreases k
  {
    if k == 0 then n else Startups(StartupCount(n), k - 1)
  }

  /** `k` cleanups from `n`. */
  function Cleanups(n: int, k: nat): (r: int)
    requires 0 <= n <= INT_MAX
    ensures 0 <= r <= INT_MAX
    decreases k
  {
    if k == 0 then n else Cleanups(CleanupCount(n), k - 1)
  }

  /**
   * Balanced use: as long as the count does not reach `INT_MAX`, `k`
   * startups followed by `k` cleanups give back the count they started
   * from.
   */
  lemma {:induction false} BalancedStartupCleanup(n: int, k: nat)
    requires 0 <= n && n + k <= INT_MAX
    ensures Startups(n, k) == n + k
    ensures Cleanups(Startups(n, k), k) == n
    decreases k
  {
    if k > 0 {
      BalancedStartupCleanup(n + 1, k - 1);
      CleanupsFrom(n + 1, k - 1);
    }
    CleanupsFrom(n, k);
  }

  lemma {:induction false} CleanupsFrom(n: int, k: nat)
    requires 0 <= n && n + k <= INT_MAX
    ensures Cleanups(n + k, k) == n
  {
    if k > 0 {
      CleanupsFrom(n, k - 1);
    }
  }

  /** More cleanups than startups never drive the count negative. */
  lemma {:induction false} CleanupsSaturate(n: int, k: nat)
    requires 0 <= n <= INT_MAX && k >= n
    ensures Cleanups(n, k) == 0
    decreases k
  {
    if k > 0 {
      CleanupsSaturate(CleanupCount(n), k - 1);
    }
  }

  // ------------------------------------------------------ traffic counters

  /** What one traced call contributes to the counters. */
  datatype Traffic =
    | Received(rc: int, peek: bool)       // recv, recvfrom
    | Sent(rc: int)                       // send, sendto
    | WsaSent(failed: bool, bytes: nat)   // WSASend, WSASendTo

  /** `recv_bytes`: bytes of successful, non-peeking receives. */
  function RecvBytes(log: seq<Traffic>): nat
  {
    if log == [] then 0
    else RecvBytes(log[..|log| - 1]) + match log[|log| - 1]
      case Received(rc, peek) => if rc >= 0 && !peek then rc else 0
      case _ => 0
  }

  /** `recv_peeked`: bytes of successful `MSG_PEEK` receives. */
  function RecvPeeked(log: seq<Traffic>): nat
  {
    if log == [] then 0
    else RecvPeeked(log[..|log| - 1]) + match log[|log| - 1]
      case Received(rc, peek) => if rc >= 0 && peek then rc else 0
      case _ => 0
  }

  /** `recv_errors`: failed receives. */
  function RecvErrors(log: seq<Traffic>): nat
  {
    if log == [] then 0
    else RecvErrors(log[..|log| - 1]) + match log[|log| - 1]
      case Received(rc, _) => if rc < 0 then 1 else 0
      case _ => 0
  }

  /** `send_bytes`: bytes of successful sends of either kind. */
  function SendBytes(log: seq<Traffic>): nat
  {
    if log == [] then 0
    else SendBytes(log[..|log| - 1]) + match log[|log| - 1]
      case Sent(rc) => if rc >= 0 then rc else 0
      case WsaSent(failed, bytes) => if failed then 0 else bytes
      case _ => 0
  }

  /** `send_errors`: failed sends of either kind. */
  function SendErrors(log: seq<Traffic>): nat
  {
    if log == [] then 0
    else SendErrors(log[..|log| - 1]) + match log[|log| - 1]
      case Sent(rc) => if rc < 0 then 1 else 0
      case WsaSent(failed, _) => if failed then 1 else 0
      case _ => 0
  }

  function Receives(log: seq<Traffic>): nat
  {
    if log == [] then 0
    else Receives(log[..|log| - 1]) + if log[|log| - 1].Received? then 1 else 0
  }

  function RecvSuccesses(log: seq<Traffic>): nat
  {
    if log == [] then 0
    else RecvSuccesses(log[..|log| - 1]) + match log[|log| - 1]
      case Received(rc, _) => if rc >= 0 then 1 else 0
      case _ => 0
  }

  /** Every receive lands in exactly one of success and failure. */
  lemma {:induction false} ReceivesPartition(log: seq<Traffic>)
    ensures RecvErrors(log) + RecvSuccesses(log) == Receives(log)
  {
    if log != [] {
      ReceivesPartition(log[..|log| - 1]);
    }
  }

  /** Counters over a log are the sums of their values over its parts. */
  lemma {:induction false} CountersAdd(a: seq<Traffic>, b: seq<Traffic>)
    ensures RecvBytes(a + b) == RecvBytes(a) + RecvBytes(b)
    ensures RecvErrors(a + b) == RecvErrors(a) + RecvErrors(b)
    ensures SendBytes(a + b) == SendBytes(a) + SendBytes(b)
    ensures SendErrors(a + b) == SendErrors(a) + SendErrors(b)
  {
    if b != [] {
      assert (a + b)[..|a + b| - 1] == a + b[..|b| - 1];
      assert (a + b)[|a + b| - 1] == b[|b| - 1];
      CountersAdd(a, b[..|b| - 1]);
    } else {
      assert a + b == a;
    }
  }

  /** Receives touch neither send counter, sends neither receive counter. */
  lemma {:induction false} CountersSeparate(log: seq<Traffic>)
    requires forall i | 0 <= i < |log| :: log[i].Received?
    ensures SendBytes(log) == 0 && SendErrors(log) == 0
  {
    if log != [] {
      CountersSeparate(log[..|log| - 1]);
    }
  }

  /** Appending a receive moves only the receive counters, by its own contribution. */
  lemma LogReceived(log: seq<Traffic>, rc: int, peek: bool)
    ensures var l := log + [Received(rc, peek)];
            && RecvBytes(l) == RecvBytes(log) + (if rc >= 0 && !peek then rc else 0)
            && RecvPeeked(l) == RecvPeeked(log) + (if rc >= 0 && peek then rc else 0)
            && RecvErrors(l) == RecvErrors(log) + (if rc < 0 then 1 else 0)
            && SendBytes(l) == SendBytes(log) && SendErrors(l) == SendErrors(log)
  {
    var l := log + [Received(rc, peek)];
    assert l[..|l| - 1] == log;
  }

  /** Appending a send of either kind moves only the send counters. */
  lemma LogSent(log: seq<Traffic>, t: Traffic)
    requires !t.Received?
    ensures var l := log + [t];
            var ok := if t.Sent? then t.rc >= 0 else !t.failed;
            var bytes := if t.Sent? then t.rc else t.bytes;
            && SendBytes(l) == SendBytes(log) + (if ok then bytes else 0)
            && SendErrors(l) == SendErrors(log) + (if ok then 0 else 1)
            && RecvBytes(l) == RecvBytes(log) && RecvPeeked(l) == RecvPeeked(log) && RecvErrors(l) == RecvErrors(log)
  {
    var l := log + [t];
    assert l[..|l| - 1] == log;
  }

  /** `WSAEWOULDBLOCK`. */
  const WSAEWOULDBLOCK: int := 10035

  /**
   * The traffic part of `g_cfg.counts`. The ghost `log` records every call
   * the counters have seen; `Valid` says each counter is exactly what that
   * log adds up to.
   */
  class Counters {
    var recvBytes: nat
    var recvPeeked: nat
    var recvErrors: nat
    var recvWouldBlock: nat
    var sendBytes: nat
    var sendErrors: nat
    ghost var log: seq<Traffic>

    ghost predicate Valid()
      reads this
    {
      recvBytes == RecvBytes(log) && recvPeeked == RecvPeeked(log) &&
      recvErrors == RecvErrors(log) &&
      sendBytes == SendBytes(log) && sendErrors == SendErrors(log)
    }

    constructor ()
      ensures Valid() && log == [] && recvWouldBlock == 0
    {
      recvBytes, recvPeeked, recvErrors, recvWouldBlock := 0, 0, 0, 0;
      sendBytes, sendErrors := 0, 0;
      log := [];
    }

    /** The counting in `recv`: `MSG_PEEK` bytes and consumed bytes apart. */
    method Recv(rc: int, peek: bool)
      requires Valid()
      modifies this
      ensures Valid() && log == old(log) + [Received(rc, peek)]
      ensures rc >= 0 && peek ==> recvPeeked == old(recvPeeked) + rc && recvBytes == old(recvBytes)
      ensures rc >= 0 && !peek ==> recvBytes == old(recvBytes) + rc && recvPeeked == old(recvPeeked)
      ensures rc >= 0 <==> recvErrors == old(recvErrors)
      ensures rc < 0 ==> recvErrors == old(recvErrors) + 1 && recvBytes == old(recvBytes) && recvPeeked == old(recvPeeked)
      ensures sendBytes == old(sendBytes) && sendErrors == old(sendErrors)
      ensures recvWouldBlock == old(recvWouldBlock)
    {
      LogReceived(log, rc, peek);
      if rc >= 0 {
        if peek {
          recvPeeked := recvPeeked + rc;
        } else {
          recvBytes := recvBytes + rc;
        }
      } else {
        recvErrors := recvErrors + 1;
      }
      log := log + [Received(rc, peek)];
    }

    /**
     * The counting in `recvfrom`, as written: the same as `Recv`, and the
     * would-block count is compared against `rc`, which on failure is
     * `SOCKET_ERROR` (-1), never `WSAEWOULDBLOCK`. The count never moves.
     */
    method RecvFrom(rc: int, peek: bool, excluded: bool)
      requires Valid()
      modifies this
      ensures Valid() && log == old(log) + [Received(rc, peek)]
      ensures recvBytes + recvPeeked == old(recvBytes + recvPeeked) + (if rc >= 0 then rc else 0)
      ensures recvErrors == old(recvErrors) + (if rc < 0 then 1 else 0)
      ensures sendBytes == old(sendBytes) && sendErrors == old(sendErrors)
      ensures recvWouldBlock == old(recvWouldBlock)
    {
      Recv(rc, peek);
      var wouldBlock := !excluded && rc < 0 && rc == WSAEWOULDBLOCK;
      recvWouldBlock := recvWouldBlock + if wouldBlock then 1 else 0;
    }

    /**
     * `recvfrom` as evidently intended: a failure whose last Winsock error
     * is `WSAEWOULDBLOCK` is counted (for traced calls, as in the source).
     */
    method RecvFromIntended(rc: int, peek: bool, excluded: bool, lastError: int)
      requires Valid()
      modifies this
      ensures Valid() && log == old(log) + [Received(rc, peek)]
      ensures recvBytes + recvPeeked == old(recvBytes + recvPeeked) + (if rc >= 0 then rc else 0)
      ensures recvErrors == old(recvErrors) + (if rc < 0 then 1 else 0)
      ensures sendBytes == old(sendBytes) && sendErrors == old(sendErrors)
      ensures recvWouldBlock == old(recvWouldBlock) + (if rc < 0 && !excluded && lastError == WSAEWOULDBLOCK then 1 else 0)
    {
      Recv(rc, peek);
      var wouldBlock := !excluded && rc < 0 && lastError == WSAEWOULDBLOCK;
      recvWouldBlock := recvWouldBlock + if wouldBlock then 1 else 0;
    }

    /** The counting in `send` and `sendto`. */
    method Send(rc: int)
      requires Valid()
      modifies this
      ensures Valid() && log == old(log) + [Sent(rc)]
      ensures sendBytes == old(sendBytes) + (if rc >= 0 then rc else 0)
      ensures sendErrors == old(sendErrors) + (if rc < 0 then 1 else 0)
      ensures recvBytes == old(recvBytes) && recvPeeked == old(recvPeeked)
      ensures recvErrors == old(recvErrors) && recvWouldBlock == old(recvWouldBlock)
    {
      LogSent(log, Sent(rc));
      if rc >= 0 {
        sendBytes := sendBytes + rc;
      } else {
        sendErrors := sendErrors + 1;
      }
      log := log + [Sent(rc)];
    }

    /**
     * The counting in `WSASend` and `WSASendTo`: anything but
     * `SOCKET_ERROR` (a pending overlapped send included) adds the bytes
     * offered in the buffers.
     */
    method WsaSend(rc: int, bufs: Option<seq<nat>>, numBufs: nat)
      requires Valid()
      requires numBufs < U32_MOD
      requires bufs.Some? ==> ToInt32(numBufs) <= |bufs.value|
      modifies this
      ensures Valid() && log == old(log) + [WsaSent(rc == SOCKET_ERROR, WsabufBytes(bufs, numBufs))]
      ensures rc == SOCKET_ERROR ==> sendErrors == old(sendErrors) + 1 && sendBytes == old(sendBytes)
      ensures rc != SOCKET_ERROR ==> sendBytes == old(sendBytes) + WsabufBytes(bufs, numBufs) && sendErrors == old(sendErrors)
      ensures recvBytes == old(recvBytes) && recvPeeked == old(recvPeeked)
      ensures recvErrors == old(recvErrors) && recvWouldBlock == old(recvWouldBlock)
    {
      LogSent(log, WsaSent(rc == SOCKET_ERROR, WsabufBytes(bufs, numBufs)));
      var bytes := 0;
      if rc == SOCKET_ERROR {
        sendErrors := sendErrors + 1;
      } else {
        bytes := CountWsabuf(bufs, numBufs);
        sendBytes := sendBytes + bytes;
      }
      log := log + [WsaSent(rc == SOCKET_ERROR, WsabufBytes(bufs, numBufs))];
    }
  }

  /** `SOCKET_ERROR` as the `int` the Winsock calls return. */
  const SOCKET_ERROR: int := -1

  // ---------------------------------------------------------- count_wsabuf

  function Sum(lens: seq<nat>): nat
  {
    if lens == [] then 0 else Sum(lens[..|lens| - 1]) + lens[|lens| - 1]
  }

  lemma {:induction false} SumAppend(a: seq<nat>, b: seq<nat>)
    ensures Sum(a + b) == Sum(a) + Sum(b)
  {
    if b != [] {
      assert (a + b)[..|a + b| - 1] == a + b[..|b| - 1];
      assert (a + b)[|a + b| - 1] == b[|b| - 1];
      SumAppend(a, b[..|b| - 1]);
    } else {
      assert a + b == a;
    }
  }

  /** Every buffer counted is at most the total. */
  lemma {:induction false} SumBounds(lens: seq<nat>, i: nat)
    requires i < |lens|
    ensures lens[i] <= Sum(lens)
  {
    if i < |lens| - 1 {
      SumBounds(lens[..|lens| - 1], i);
    }
  }

  /**
   * What `count_wsabuf(bufs, num_bufs)` adds up: the `len` of the first
   * `(int)num_bufs` buffers, and 0 for a NULL array or a count that is 0
   * or negative as an `int`.
   */
  function WsabufBytes(bufs: Option<seq<nat>>, numBufs: nat): nat
    requires numBufs < U32_MOD
    requires bufs.Some? ==> ToInt32(numBufs) <= |bufs.value|
  {
    if bufs.None? || ToInt32(numBufs) <= 0 then 0 else Sum(bufs.value[..ToInt32(numBufs)])
  }

  /** `count_wsabuf`: the loop over the array while `bufs` is non-NULL. */
  method CountWsabuf(bufs: Option<seq<nat>>, numBufs: nat) returns (rc: nat)
    requires numBufs < U32_MOD
    requires bufs.Some? ==> ToInt32(numBufs) <= |bufs.value|
    ensures rc == WsabufBytes(bufs, numBufs)
    ensures bufs.None? || numBufs == 0 ==> rc == 0
    ensures bufs.Some? && 0 < ToInt32(numBufs) ==> bufs.value[0] <= rc
  {
    rc := 0;
    var i := 0;
    var n := ToInt32(numBufs);
    while i < n && bufs.Some?
      invariant 0 <= i && (i == 0 || i <= n)
      invariant bufs.Some? ==> rc == Sum(bufs.value[..i])
      invariant bufs.None? ==> rc == 0
    {
      assert bufs.value[..i + 1][..i] == bufs.value[..i];
      rc := rc + bufs.value[i];
      i := i + 1;
    }
    if bufs.Some? && 0 < n {
      SumBounds(bufs.value[..n], 0);
    }
  }

  // ------------------------------------------------- pointer / socket text

  /** `get_error(rc)`: "No error" for 0, else the text of the last error. */
  function GetError(rc: int, lastErrorText: string): string
  {
    if rc != 0 then lastErrorText else "No error"
  }

  /**
   * The build's word size in bytes: `sizeof(UINT_PTR)` is 8 and
   * `SOCK_RC_TYPE` is a 64-bit `SOCKET` when `WIN64` is defined; otherwise
   * both are 4 (`SOCK_RC_TYPE` is then `unsigned`).
   */
  predicate IsWordSize(size: nat)
  {
    size == 4 || size == 8
  }

  /** One past the largest value of a word of `size` bytes. */
  function WordMod(size: nat): (m: nat)
    requires IsWordSize(size)
    ensures m == Pow16(2 * size)
    ensures size == 4 ==> m == U32_MOD
    ensures size == 8 ==> m == U64_MOD
  {
    WordSizes();
    if size == 4 then U32_MOD else U64_MOD
  }

  /**
   * `uint_ptr_hexval(val, buf)`: the hex loop on a `UINT_PTR` of `size`
   * bytes, writing `"0x"` and `2*size` digits into the start of `buf`.
   */
  method UintPtrHexval(val: nat, size: nat, buf: array<char>)
    requires IsWordSize(size) && val < WordMod(size) && buf.Length >= 2 + 2 * size
    modifies buf
    ensures buf[..2 + 2 * size] == "0x" + Hex(val, 2 * size)
    ensures buf[2 + 2 * size..] == old(buf[2 + 2 * size..])
  {
    FillHex(buf, val, size);
  }

  /** `ptr_or_error(ptr)`: error text for NULL, else the pointer in hex. */
  method PtrOrError(ptr: nat, size: nat, lastErrorText: string) returns (s: string)
    requires IsWordSize(size) && ptr < WordMod(size)
    ensures ptr == 0 ==> s == lastErrorText
    ensures ptr != 0 ==> s == "0x" + Hex(ptr, 2 * size) && |s| == 2 + 2 * size && ParseHex(s[2..]) == Some(ptr)
  {
    if ptr == 0 {
      return GetError(-1, lastErrorText);
    }
    var buf := new char[30](_ => '\0');
    UintPtrHexval(ptr, size, buf);
    HexHasNoNul(ptr, 2 * size);
    assert buf[..] == buf[..2 + 2 * size] + buf[2 + 2 * size..];
    UpToNulTerminated(buf[..2 + 2 * size], buf[2 + 2 * size..]);
    s := UpToNul(buf[..]);
    assert s[2..] == Hex(ptr, 2 * size);
    ParseHexOfHex(ptr, 2 * size);
  }

  /**
   * `INVALID_SOCKET` (`~0`) and `SOCKET_ERROR` (-1) as a `SOCK_RC_TYPE`
   * of `size` bytes: both are the all-ones word.
   */
  function InvalidSocket(size: nat): (r: nat)
    requires IsWordSize(size)
    ensures r + 1 == WordMod(size)
  {
    WordMod(size) - 1
  }

  /**
   * `socket_or_error(rc)` on a `SOCK_RC_TYPE` of `size` bytes: the error
   * text for `INVALID_SOCKET`, else the decimal text of `(int)rc`.
   */
  function SocketOrError(rc: nat, size: nat, lastErrorText: string): (s: string)
    requires IsWordSize(size) && rc < WordMod(size)
  {
    if rc == InvalidSocket(size) then GetError(rc, lastErrorText)
    else SignedDecimal(ToInt32(rc))
  }

  /** A valid socket below 2^31 prints as its own value, which reads back. */
  lemma SocketOrErrorReadsBack(rc: nat, size: nat, lastErrorText: string)
    requires IsWordSize(size) && rc <= INT_MAX
    ensures ParseDecimal(SocketOrError(rc, size, lastErrorText)) == Some(rc)
  {
    assert rc % U32_MOD == rc;
    assert SocketOrError(rc, size, lastErrorText) == Decimal(rc);
    ParseDecimalOfDecimal(rc);
  }

  /**
   * Only `INVALID_SOCKET` gives error text; `(int)rc` keeps the low 32
   * bits. The all-ones 32-bit word is `INVALID_SOCKET` in a 32-bit build
   * but an ordinary value printed as `-1` in a 64-bit one.
   */
  lemma SocketOrErrorCases(rc: nat, size: nat, lastErrorText: string)
    requires IsWordSize(size) && rc < WordMod(size)
    ensures rc == InvalidSocket(size) ==> SocketOrError(rc, size, lastErrorText) == lastErrorText
    ensures rc != InvalidSocket(size) ==> SocketOrError(rc, size, lastErrorText) == SignedDecimal(ToInt32(rc))
    ensures rc != InvalidSocket(size) && rc % U32_MOD >= 0x8000_0000 ==> SocketOrError(rc, size, lastErrorText)[0] == '-'
    ensures size == 4 && rc == U32_MOD - 1 ==> SocketOrError(rc, size, lastErrorText) == lastErrorText
    ensures size == 8 && rc == U32_MOD - 1 ==> SocketOrError(rc, size, lastErrorText) == "-1"
  {
    if rc == U32_MOD - 1 && size == 8 {
      assert ToInt32(rc) == -1;
      assert SignedDecimal(-1) == "-1";
    }
  }

  // -------------------------------------------------------------- sockaddr

  /** The parts of a `sockaddr` the formatter reads; ports in network order. */
  datatype SockAddr =
    | SockAddrIn(b1: nat, b2: nat, b3: nat, b4: nat, port: nat)
    | SockAddrIn6(addr: seq<nat>, port6: nat)
    | SockAddrOther(family: nat)

  const AF_INET: nat := 2
  const AF_INET6: nat := 23

  /** Byte-sized address parts, 16-bit ports, and a family tag that matches the variant. */
  predicate WellFormed(sa: SockAddr)
  {
    match sa
    case SockAddrIn(b1, b2, b3, b4, port) => b1 < 256 && b2 < 256 && b3 < 256 && b4 < 256 && port < 0x1_0000
    case SockAddrIn6(addr, port6) => |addr| == 16 && port6 < 0x1_0000
    case SockAddrOther(f) => f != AF_INET && f != AF_INET6
  }

  /** `swap16`: network to host byte order of a 16-bit port. */
  function Swap16(p: nat): (r: nat)
    requires p < 0x1_0000
    ensures r < 0x1_0000
  {
    (p % 256) * 256 + p / 256
  }

  /** Swapping twice gives the port back. */
  lemma Swap16Involution(p: nat)
    requires p < 0x1_0000
    ensures Swap16(Swap16(p)) == p
  {
    var lo, hi := p % 256, p / 256;
    assert Swap16(p) == lo * 256 + hi;
    assert (lo * 256 + hi) % 256 == hi;
    assert (lo * 256 + hi) / 256 == lo;
  }

  /**
   * `sockaddr_str_port(sa)`: `"<NULL>"` for a NULL pointer,
   * `"b1.b2.b3.b4:port"` for `AF_INET`, `"[addr]:port"` for `AF_INET6`
   * (the address text up to the terminator `inet_ntop6` writes), and NULL
   * for any other family. `ntop6` stands for `wsock_trace_inet_ntop6`.
   */
  function SockaddrStrPort(sa: Option<SockAddr>, ntop6: seq<nat> -> string): (r: Option<string>)
    requires sa.Some? ==> WellFormed(sa.value)
    ensures r.None? <==> sa.Some? && sa.value.SockAddrOther?
  {
    match sa
    case None => Some("<NULL>")
    case Some(SockAddrIn(b1, b2, b3, b4, port)) =>
      Some(Decimal(b1) + "." + Decimal(b2) + "." + Decimal(b3) + "." + Decimal(b4) + ":" + Decimal(Swap16(port)))
    case Some(SockAddrIn6(addr, port6)) =>
      Some("[" + UpToNul(ntop6(addr)) + "]:" + Decimal(Swap16(port6)))
    case Some(SockAddrOther(_)) => None
  }

  /** The text after the last `':'`, or all of it when there is none. */
  function AfterLastColon(s: string): (r: string)
    ensures ':' !in r
  {
    if s == [] then []
    else if s[|s| - 1] == ':' then []
    else AfterLastColon(s[..|s| - 1]) + [s[|s| - 1]]
  }

  lemma {:induction false} AfterLastColonOf(p: string, d: string)
    requires ':' !in d
    ensures AfterLastColon(p + ":" + d) == d
  {
    if d != [] {
      assert (p + ":" + d)[..|p + ":" + d| - 1] == p + ":" + d[..|d| - 1];
      AfterLastColonOf(p, d[..|d| - 1]);
    } else {
      assert p + ":" + d == p + ":";
    }
  }

  /** Decimal digits hold neither field separator of an address text. */
  lemma DecimalHasNoSeparator(x: nat)
    ensures ':' !in Decimal(x) && '.' !in Decimal(x)
  {
    var d := Decimal(x);
    forall i | 0 <= i < |d| ensures d[i] != ':' && d[i] != '.' {
      assert '0' <= d[i] <= '9';
    }
  }

  predicate IsFieldSep(ch: char)
  {
    ch == '.' || ch == ':'
  }

  /** The fields of an address text, split at every `'.'` and `':'`. */
  function Fields(s: string): (r: seq<string>)
    ensures |r| >= 1
  {
    if s == [] then [[]]
    else
      var init := Fields(s[..|s| - 1]);
      if IsFieldSep(s[|s| - 1]) then init + [[]]
      else init[..|init| - 1] + [init[|init| - 1] + [s[|s| - 1]]]
  }

  /** A text with no separator is one field. */
  lemma {:induction false} FieldsOfPlain(d: string)
    requires ':' !in d && '.' !in d
    ensures Fields(d) == [d]
  {
    if d != [] {
      assert d[..|d| - 1] + [d[|d| - 1]] == d;
      FieldsOfPlain(d[..|d| - 1]);
    }
  }

  /** A separator and a plain text after `p` add that text as one more field. */
  lemma {:induction false} FieldsAppend(p: string, sep: char, d: string)
    requires IsFieldSep(sep) && ':' !in d && '.' !in d
    ensures Fields(p + [sep] + d) == Fields(p) + [d]
  {
    if d == [] {
      assert (p + [sep] + d)[..|p + [sep] + d| - 1] == p;
    } else {
      var d0 := d[..|d| - 1];
      assert (p + [sep] + d)[..|p + [sep] + d| - 1] == p + [sep] + d0;
      FieldsAppend(p, sep, d0);
      assert d0 + [d[|d| - 1]] == d;
    }
  }

  /**
   * For both families the port reads back: the text after the last colon
   * is the decimal host-order port, and swapping it again gives the
   * network-order field.
   */
  lemma SockaddrPortReadsBack(sa: SockAddr, ntop6: seq<nat> -> string)
    requires WellFormed(sa) && !sa.SockAddrOther?
    ensures SockaddrStrPort(Some(sa), ntop6).Some?
    ensures var p := if sa.SockAddrIn? then sa.port else sa.port6;
            var t := AfterLastColon(SockaddrStrPort(Some(sa), ntop6).value);
            ParseDecimal(t) == Some(Swap16(p)) && Swap16(Swap16(p)) == p
  {
    var p := if sa.SockAddrIn? then sa.port else sa.port6;
    DecimalHasNoSeparator(Swap16(p));
    ParseDecimalOfDecimal(Swap16(p));
    Swap16Involution(p);
    match sa {
      case SockAddrIn(b1, b2, b3, b4, port) =>
        var head := Decimal(b1) + "." + Decimal(b2) + "." + Decimal(b3) + "." + Decimal(b4);
        AfterLastColonOf(head, Decimal(Swap16(port)));
      case SockAddrIn6(addr, port6) =>
        var head := "[" + UpToNul(ntop6(addr)) + "]";
        assert "[" + UpToNul(ntop6(addr)) + "]:" + Decimal(Swap16(port6)) == head + ":" + Decimal(Swap16(port6));
        AfterLastColonOf(head, Decimal(Swap16(port6)));
    }
  }

  /**
   * An `AF_INET` text reads back: its fields are the four address bytes
   * and the host-order port, in that order, each in decimal.
   */
  lemma SockaddrIn4ReadsBack(sa: SockAddr, ntop6: seq<nat> -> string)
    requires WellFormed(sa) && sa.SockAddrIn?
    ensures var f := Fields(SockaddrStrPort(Some(sa), ntop6).value);
            |f| == 5 && ParseDecimal(f[0]) == Some(sa.b1) && ParseDecimal(f[1]) == Some(sa.b2)
            && ParseDecimal(f[2]) == Some(sa.b3) && ParseDecimal(f[3]) == Some(sa.b4)
            && ParseDecimal(f[4]) == Some(Swap16(sa.port))
  {
    var d1, d2, d3, d4, dp := Decimal(sa.b1), Decimal(sa.b2), Decimal(sa.b3), Decimal(sa.b4), Decimal(Swap16(sa.port));
    DecimalHasNoSeparator(sa.b1);
    DecimalHasNoSeparator(sa.b2);
    DecimalHasNoSeparator(sa.b3);
    DecimalHasNoSeparator(sa.b4);
    DecimalHasNoSeparator(Swap16(sa.port));
    FieldsOfPlain(d1);
    FieldsAppend(d1, '.', d2);
    FieldsAppend(d1 + "." + d2, '.', d3);
    FieldsAppend(d1 + "." + d2 + "." + d3, '.', d4);
    FieldsAppend(d1 + "." + d2 + "." + d3 + "." + d4, ':', dp);
    ParseDecimalOfDecimal(sa.b1);
    ParseDecimalOfDecimal(sa.b2);
    ParseDecimalOfDecimal(sa.b3);
    ParseDecimalOfDecimal(sa.b4);
    ParseDecimalOfDecimal(Swap16(sa.port));
  }

  /**
   * `sockaddr_str2(sa)`: `sockaddr_str_port` where it has an answer,
   * else `sockaddr_str` (`WSAAddressToStringA`, whose text is `fallback`).
   */
  function SockaddrStr2(sa: Option<SockAddr>, ntop6: seq<nat> -> string, fallback: string): (s: string)
    requires sa.Some? ==> WellFormed(sa.value)
    ensures sa.Some? && sa.value.SockAddrOther? ==> s == fallback
    ensures !(sa.Some? && sa.value.SockAddrOther?) ==> Some(s) == SockaddrStrPort(sa, ntop6)
  {
    var p := SockaddrStrPort(sa, ntop6);
    if p.None? then fallback else p.value
  }

  // ---------------------------------------------------------- WSAIoctl tag

  const IOC_VOID: bv32 := 0x2000_0000
  const IOC_OUT: bv32 := 0x4000_0000
  const IOC_IN: bv32 := 0x8000_0000
  const IOC_INOUT: bv32 := 0xC000_0000

  /** The direction tag of a `WSAIoctl` trace line, as written. */
  function IoctlTag(code: bv32): string
  {
    if code & IOC_INOUT != 0 then " (RW)"
    else if code & IOC_OUT != 0 then " (R)"
    else if code & IOC_IN != 0 then " (W)"
    else if code & IOC_VOID != 0 then " (N)"
    else ""
  }

  /**
   * As written, either direction bit gives `" (RW)"`: the `" (R)"` and
   * `" (W)"` branches can never be taken.
   */
  lemma IoctlTagAsWritten(code: bv32)
    ensures IoctlTag(code) != " (R)" && IoctlTag(code) != " (W)"
    ensures IoctlTag(code) == " (RW)" <==> code & IOC_INOUT != 0
    ensures IoctlTag(code) == " (N)" <==> code & IOC_INOUT == 0 && code & IOC_VOID != 0
    ensures IoctlTag(IOC_OUT) == " (RW)" && IoctlTag(IOC_IN) == " (RW)"
  {
  }

  /** The tag as evidently intended: `(RW)` only when both bits are set. */
  function IoctlTagIntended(code: bv32): string
  {
    if code & IOC_INOUT == IOC_INOUT then " (RW)"
    else if code & IOC_OUT != 0 then " (R)"
    else if code & IOC_IN != 0 then " (W)"
    else if code & IOC_VOID != 0 then " (N)"
    else ""
  }

  /** Each direction bit shows up in the intended tag, and only then. */
  lemma IoctlTagIntendedDirections(code: bv32)
    ensures IoctlTagIntended(code) == " (RW)" <==> code & IOC_OUT != 0 && code & IOC_IN != 0
    ensures IoctlTagIntended(code) == " (R)" <==> code & IOC_OUT != 0 && code & IOC_IN == 0
    ensures IoctlTagIntended(code) == " (W)" <==> code & IOC_OUT == 0 && code & IOC_IN != 0
    ensures IoctlTagIntended(code) == " (N)" <==> code & IOC_INOUT == 0 && code & IOC_VOID != 0
    ensures IoctlTagIntended(code) == IoctlTag(code) <==> code & IOC_INOUT == 0 || code & IOC_INOUT == IOC_INOUT
  {
  }

  // ------------------------------------------- WSAWaitForMultipleEvents

  const WSA_WAIT_FAILED: nat := 0xFFFF_FFFF
  const WSA_WAIT_IO_COMPLETION: nat := 0xC0
  const WSA_WAIT_TIMEOUT: nat := 0x102
  const WSA_WAIT_EVENT_0: nat := 0

  /** The result text and the suffix of a `WSAWaitForMultipleEvents` line. */
  function WaitLabel(rc: nat, numEv: nat, waitAll: bool, lastErrorText: string): (r: (string, string))
    requires rc < U32_MOD && numEv < U32_MOD
  {
    if rc == WSA_WAIT_FAILED then (GetError(rc, lastErrorText), "")
    else if rc == WSA_WAIT_IO_COMPLETION then ("WSA_WAIT_IO_COMPLETION", "")
    else if rc == WSA_WAIT_TIMEOUT then ("WSA_WAIT_TIMEOUT", "")
    else if WSA_WAIT_EVENT_0 <= rc < WSA_WAIT_EVENT_0 + numEv then
      ("WSA_WAIT_EVENT_0", if waitAll then ", all" else ", " + Decimal(rc - WSA_WAIT_EVENT_0))
    else ("Unknown", "")
  }

  /**
   * A signalled index is labelled `WSA_WAIT_EVENT_0` and, for a wait on
   * any one event, the suffix reads back as that index.
   */
  lemma WaitLabelIndex(rc: nat, numEv: nat, waitAll: bool, lastErrorText: string)
    requires rc < numEv < U32_MOD
    requires rc != WSA_WAIT_IO_COMPLETION && rc != WSA_WAIT_TIMEOUT
    ensures WaitLabel(rc, numEv, waitAll, lastErrorText).0 == "WSA_WAIT_EVENT_0"
    ensures waitAll ==> WaitLabel(rc, numEv, waitAll, lastErrorText).1 == ", all"
    ensures !waitAll ==> ParseDecimal(WaitLabel(rc, numEv, waitAll, lastErrorText).1[2..]) == Some(rc)
  {
    if !waitAll {
      var t := WaitLabel(rc, numEv, waitAll, lastErrorText).1;
      assert t[2..] == Decimal(rc);
      ParseDecimalOfDecimal(rc);
    }
  }

  /** A result that is no event index, and no special value, is "Unknown". */
  lemma WaitLabelUnknown(rc: nat, numEv: nat, waitAll: bool, lastErrorText: string)
    requires numEv <= rc < WSA_WAIT_FAILED
    requires rc != WSA_WAIT_IO_COMPLETION && rc != WSA_WAIT_TIMEOUT
    ensures WaitLabel(rc, numEv, waitAll, lastErrorText) == ("Unknown", "")
  {
  }
}
