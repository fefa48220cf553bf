/** The HostARQ session handle of the user library (src/libhostarq.cpp and
  * its C twin src/libhostarq.c): construction, teardown, and the argument
  * checks that `hostarq_open`/`hostarq_close` perform before spawning or
  * stopping the daemon. A C `NULL` string is `None`; `abort()` is a
  * returned `Abort` reason, raised before anything is changed. */
module HostArq {
  import opened Base

  /** `NAME_MAX` of Linux: the longest file name, in bytes. */
  const NAME_MAX: nat := 255

  /** The bytes of a NUL-terminated C string, without the terminator:
    * `strlen` is its length, in bytes whatever the encoding. */
  type CString = s: seq<u8> | 0 !in s

  /** "/dev/shm/" in ASCII. */
  const SHM_PREFIX: CString := [0x2F, 0x64, 0x65, 0x76, 0x2F, 0x73, 0x68, 0x6D, 0x2F]

  datatype Abort =
    | HandleUnset
    | ShmNameUnset
    | NameTooLong
    | RemoteIpUnset
    | PidAlreadySet
    | PidUnset
    | ShmPathUnset

  class Handle {
    var pid: int
    var shmName: Option<CString>
    var shmPath: Option<CString>
    var remoteIp: Option<CString>
    var init: bool
    var udpDataPort: u16
    var udpResetPort: u16
    var udpDataLocalPort: u16

    /** A zero-initialised `struct hostarq_handle`. */
    constructor ()
      ensures pid == 0 && shmName == None && shmPath == None && remoteIp == None
    {
      pid := 0;
      shmName := None;
      shmPath := None;
      remoteIp := None;
    }

    /** `hostarq_free_handle`: releases and clears the three strings. */
    method Free()
      modifies this
      ensures shmName == None && shmPath == None && remoteIp == None
      ensures pid == old(pid) && init == old(init)
      ensures udpDataPort == old(udpDataPort) && udpResetPort == old(udpResetPort)
      ensures udpDataLocalPort == old(udpDataLocalPort)
    {
      shmName := None;
      shmPath := None;
      remoteIp := None;
    }

    /** The checks at the top of `hostarq_open`, in their order. */
    function OpenCheck(): (r: Option<Abort>)
      reads this
      ensures r.None? <==> pid == 0 && shmName.Some? && shmPath.Some? && remoteIp.Some?
      ensures pid != 0 ==> r == Some(PidAlreadySet)
    {
      if pid != 0 then Some(PidAlreadySet)
      else if shmName.None? then Some(ShmNameUnset)
      else if shmPath.None? then Some(ShmPathUnset)
      else if remoteIp.None? then Some(RemoteIpUnset)
      else None
    }

    /** The checks at the top of `hostarq_close`, in their order. */
    function CloseCheck(): (r: Option<Abort>)
      reads this
      ensures r.None? <==> pid != 0 && shmPath.Some?
      ensures pid == 0 ==> r == Some(PidUnset)
    {
      if pid == 0 then Some(PidUnset)
      else if shmPath.None? then Some(ShmPathUnset)
      else None
    }
  }

  /** The argument checks of `hostarq_create_handle`, in their order: the
    * first one that fails aborts. */
  function CreateCheck(hasHandle: bool, shmName: Option<CString>, remoteIp: Option<CString>): (r: Option<Abort>)
    ensures r.None? <==> hasHandle && shmName.Some? && |shmName.value| < NAME_MAX && remoteIp.Some?
    ensures !hasHandle ==> r == Some(HandleUnset)
    ensures hasHandle && shmName.Some? && |shmName.value| >= NAME_MAX ==> r == Some(NameTooLong)
  {
    if !hasHandle then Some(HandleUnset)
    else if shmName.None? then Some(ShmNameUnset)
    else if |shmName.value| >= NAME_MAX then Some(NameTooLong)
    else if remoteIp.None? then Some(RemoteIpUnset)
    else None
  }

  /** `strcpy(path, "/dev/shm/"); strncat(path, name, NAME_MAX)`. */
  function ShmPath(name: CString): (path: CString)
    ensures |path| <= |SHM_PREFIX| + NAME_MAX
    ensures |SHM_PREFIX| <= |path| && path[..|SHM_PREFIX|] == SHM_PREFIX
  {
    SHM_PREFIX + (if |name| <= NAME_MAX then name else name[..NAME_MAX])
  }

  /** A name that passed the length check is copied whole, and the path
    * with its terminator fits the buffer of 9 + NAME_MAX + 1 bytes. */
  lemma ShmPathNotTruncated(name: CString)
    requires |name| < NAME_MAX
    ensures ShmPath(name) == SHM_PREFIX + name
    ensures |ShmPath(name)| + 1 <= |SHM_PREFIX| + NAME_MAX + 1
    ensures ShmPath(name)[|SHM_PREFIX|..] == name
  {
  }

  /** `hostarq_create_handle` (C++ version, with the UDP ports). */
  method CreateHandle(handle: Handle?, shmName: Option<CString>, remoteIp: Option<CString>,
                      udpDataPort: u16, udpResetPort: u16, udpDataLocalPort: u16, init: bool)
    returns (r: Option<Abort>)
    modifies handle
    ensures r == CreateCheck(handle != null, shmName, remoteIp)
    ensures r.Some? && handle != null ==> unchanged(handle)
    ensures r.None? ==>
      (handle != null && handle.pid == 0
       && handle.shmName == shmName && handle.remoteIp == remoteIp
       && handle.shmPath.Some? && handle.shmPath.value == SHM_PREFIX + shmName.value
       && handle.udpDataPort == udpDataPort && handle.udpResetPort == udpResetPort
       && handle.udpDataLocalPort == udpDataLocalPort && handle.init == init)
  {
    r := CreateCheck(handle != null, shmName, remoteIp);
    if r.Some? {
      return;
    }
    handle.pid := 0;
    handle.shmName := shmName;
    handle.shmPath := Some(ShmPath(shmName.value));
    ShmPathNotTruncated(shmName.value);
    handle.remoteIp := remoteIp;
    handle.udpDataPort := udpDataPort;
    handle.udpResetPort := udpResetPort;
    handle.udpDataLocalPort := udpDataLocalPort;
    handle.init := init;
  }

  /** `hostarq_create_handle` (C version): the same checks and strings; the
    * C handle has no ports. */
  method CreateHandleC(handle: Handle?, shmName: Option<CString>, remoteIp: Option<CString>, init: bool)
    returns (r: Option<Abort>)
    modifies handle
    ensures r == CreateCheck(handle != null, shmName, remoteIp)
    ensures r.Some? && handle != null ==> unchanged(handle)
    ensures r.None? ==>
      (handle != null && handle.pid == 0
       && handle.shmName == shmName && handle.remoteIp == remoteIp
       && handle.shmPath.Some? && handle.shmPath.value == SHM_PREFIX + shmName.value && handle.init == init
       && handle.udpDataPort == old(handle.udpDataPort) && handle.udpResetPort == old(handle.udpResetPort)
       && handle.udpDataLocalPort == old(handle.udpDataLocalPort))
  {
    r := CreateCheck(handle != null, shmName, remoteIp);
    if r.Some? {
      return;
    }
    handle.pid := 0;
    handle.shmName := shmName;
    handle.shmPath := Some(ShmPath(shmName.value));
    ShmPathNotTruncated(shmName.value);
    handle.remoteIp := remoteIp;
    handle.init := init;
  }

  /** A freshly created handle may be opened but not closed. */
  lemma CreatedHandleOpens(h: Handle, name: CString, ip: CString)
    requires h.pid == 0 && h.shmName == Some(name) && h.remoteIp == Some(ip)
    requires h.shmPath.Some? && h.shmPath.value == SHM_PREFIX + name
    ensures h.OpenCheck() == None
    ensures h.CloseCheck() == Some(PidUnset)
  {
  }

  /** A freed handle can be neither opened (its name is gone) nor closed
    * (its path is gone). */
  lemma FreedHandleIsDead(h: Handle)
    requires h.shmName == None && h.shmPath == None && h.remoteIp == None
    ensures h.OpenCheck().Some? && h.CloseCheck().Some?
    ensures h.pid == 0 ==> h.OpenCheck() == Some(ShmNameUnset)
    ensures h.pid != 0 ==> h.CloseCheck() == Some(ShmPathUnset)
  {
  }
}
