/** Constants of the Winsock interface and the few shared helper types. */
module Winsock {

  datatype Option<+T> = None | Some(value: T)

  const FALSE := 0
  const TRUE := 1
  const SOCKET_ERROR := -1

  const WSABASEERR := 10000
  const WSA_INVALID_HANDLE := 6
  const WSA_NOT_ENOUGH_MEMORY := 8
  const WSA_INVALID_PARAMETER := 87
  const WSAEFAULT := WSABASEERR + 14
  const WSAEINVAL := WSABASEERR + 22
  const WSAEAFNOSUPPORT := WSABASEERR + 47
  const WSAENETDOWN := WSABASEERR + 50
  const WSAECONNRESET := WSABASEERR + 54
  const WSAECONNREFUSED := WSABASEERR + 61

  const WSA_MAXIMUM_WAIT_EVENTS := 64
  const WSA_INFINITE := 0xFFFF_FFFF
  const WSA_WAIT_EVENT_0 := 0
  const WSA_WAIT_FAILED := 0xFFFF_FFFF
  const WSA_WAIT_TIMEOUT := 0x102

  /** What a call leaves behind: its return value and the thread's last error. */
  datatype Answer = Answer(value: int, error: int)

  /** The first position of x, or the length when it is absent. */
  function IndexOf<T(==)>(s: seq<T>, x: T): (i: nat)
    ensures i <= |s|
    ensures i < |s| ==> s[i] == x
    ensures forall j: nat | j < i :: s[j] != x
    ensures i == |s| <==> x !in s
  {
    if s == [] || s[0] == x then 0 else 1 + IndexOf(s[1..], x)
  }

  /** s without its first x. */
  function Without<T(==)>(s: seq<T>, x: T): seq<T> {
    var i := IndexOf(s, x);
    if i < |s| then s[..i] + s[i + 1..] else s
  }

  lemma Append3<T>(x: seq<T>, y: seq<T>, z: seq<T>)
    ensures (x + y) + z == x + (y + z)
  {
  }
}
