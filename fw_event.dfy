/**
 * How the firewall monitor classifies one network event: the IP-version
 * gate, the direction it infers, the address, program, user and package
 * checks (`print_addresses_ipv4/6`, `print_app_id`, `print_user_id`,
 * `print_package_id`) and the decision to emit the event or count it as
 * ignored, with the `fw_num_events` / `fw_num_ignored` counters. The text
 * the checks print is modelled for the address line; native lookups
 * (address and port text, SID strings, accounts) are parameters.
 */
module FwEvent {
  import opened Common
  import opened FwCache

  // ------------------------------------------------------------ constants

  const FLAG_IP_PROTOCOL_SET: bv32 := 0x0000_0001
  const FLAG_LOCAL_ADDR_SET: bv32 := 0x0000_0002
  const FLAG_REMOTE_ADDR_SET: bv32 := 0x0000_0004
  const FLAG_LOCAL_PORT_SET: bv32 := 0x0000_0008
  const FLAG_REMOTE_PORT_SET: bv32 := 0x0000_0010
  const FLAG_APP_ID_SET: bv32 := 0x0000_0020
  const FLAG_USER_ID_SET: bv32 := 0x0000_0040
  const FLAG_SCOPE_ID_SET: bv32 := 0x0000_0080
  const FLAG_IP_VERSION_SET: bv32 := 0x0000_0100
  const FLAG_PACKAGE_ID_SET: bv32 := 0x0000_0400

  /** `FWP_IP_VERSION_V4` and `FWP_IP_VERSION_V6`. */
  const IP_V4: nat := 0
  const IP_V6: nat := 1

  const IPPROTO_TCP: nat := 6
  const IPPROTO_UDP: nat := 17

  const TYPE_CLASSIFY_DROP: nat := 3
  const TYPE_CLASSIFY_ALLOW: nat := 6
  const TYPE_CAPABILITY_DROP: nat := 7
  const TYPE_CAPABILITY_ALLOW: nat := 8

  /** `FWP_DIRECTION_OUTBOUND`, `FWP_DIRECTION_INBOUND`, `FWP_DIRECTION_IN`, `FWP_DIRECTION_OUT`. */
  const DIR_OUTBOUND: nat := 0
  const DIR_INBOUND: nat := 1
  const DIR_IN: nat := 0x3900
  const DIR_OUT: nat := 0x3901

  /** The SID string of the NULL SID, which a package check skips. */
  const NULL_SID: string := "S-1-0-0"

  // ---------------------------------------------------------------- data

  /**
   * The parts of an event header the checks read. The address texts are
   * what `inet_ntop` makes of the addresses; `appName` is the program name
   * converted from the wide `appId` (`None` when the conversion fails).
   */
  datatype Header = Header(
    flags: bv32,
    ipVersion: nat,
    ipProtocol: nat,
    localAddr: string,
    remoteAddr: string,
    localPort: nat,
    remotePort: nat,
    scopeId: nat,
    hasAppId: bool,
    appName: Option<string>,
    userId: Option<Sid>,
    packageSid: Option<Sid>)

  /** An event: its type, header and, for classify events, `msFwpDirection`. */
  datatype Event = Event(eventType: nat, header: Header, msDirection: nat)

  /** The `g_cfg.firewall` switches and lists the checks consult. */
  datatype Config = Config(
    showAll: bool,
    showIpv4: bool,
    showIpv6: bool,
    showUser: bool,
    excludedAddresses: set<string>,
    excludedPrograms: set<string>,
    fwModule: string,
    loggedOnUser: string)

  /**
   * The native lookups: `portText` for `get_port`, `sidString` for
   * `ConvertSidToStringSid` and `accountOf` for the account lookup.
   */
  datatype Natives = Natives(
    portText: nat -> string,
    sidString: Sid -> Option<string>,
    accountOf: Sid -> (string, string))

  predicate Has(flags: bv32, flag: bv32)
  {
    flags & flag != 0
  }

  // ------------------------------------------------------ volume_to_path

  /** The device prefix `volume_to_path` recognises, in any case. */
  const VOLUME: string := "\\Device\\HarddiskVolume"

  predicate IsDigit(c: char)
  {
    '0' <= c <= '9'
  }

  /** A path that starts with a volume device with a one-digit number. */
  predicate IsVolumePath(volume: string)
  {
    HasPrefixIgnoreCase(volume, VOLUME) && |volume| > |VOLUME| + 1 &&
    IsDigit(volume[|VOLUME|]) && volume[|VOLUME| + 1] == '\\'
  }

  /**
   * `volume_to_path`: `\Device\HarddiskVolumeN\rest` becomes the drive
   * letter `'a' + N`, a colon and `\rest`; anything else is unchanged.
   */
  function VolumeToPath(volume: string): (r: string)
  {
    if IsVolumePath(volume) then
      [('a' as int + (volume[|VOLUME|] as int - '0' as int)) as char, ':'] + volume[|VOLUME| + 1..]
    else volume
  }

  /** A mapped path names drive `'a'`..`'j'` and keeps the rest of the path. */
  lemma VolumeToPathMapped(volume: string)
    requires IsVolumePath(volume)
    ensures var r := VolumeToPath(volume);
            |r| == |volume| - |VOLUME| + 1 && 'a' <= r[0] <= 'j' && r[1] == ':' && r[2] == '\\' &&
            r[0] as int - 'a' as int == volume[|VOLUME|] as int - '0' as int &&
            r[2..] == volume[|VOLUME| + 1..]
  {
  }

  /** Mapping is idempotent: a drive path is not a device path. */
  lemma VolumeToPathIdempotent(volume: string)
    ensures VolumeToPath(VolumeToPath(volume)) == VolumeToPath(volume)
  {
    var r := VolumeToPath(volume);
    if IsVolumePath(volume) {
      assert r[0] != '\\';
      assert ToUpper(r[0]) != ToUpper(VOLUME[0]);
      assert !HasPrefixIgnoreCase(r, VOLUME);
    }
  }

  /** Any spelling of the device prefix that matches it up to case is recognised. */
  lemma VolumeToPathAnyCase(prefix: string, d: char, rest: string)
    requires EqualsIgnoreCase(prefix, VOLUME) && IsDigit(d) && rest != [] && rest[0] == '\\'
    ensures VolumeToPath(prefix + [d] + rest) == [('a' as int + (d as int - '0' as int)) as char, ':'] + rest
  {
    var v := prefix + [d] + rest;
    assert v[..|VOLUME|] == prefix;
    assert v[|VOLUME|] == d;
    assert v[|VOLUME| + 1..] == rest;
  }

  // ----------------------------------------------------------- get_ports

  /**
   * `get_ports`: nothing for protocols other than TCP and UDP, else
   * `", ports: L / R"` with `"-"` for a port the header does not carry.
   */
  function GetPorts(h: Header, portText: nat -> string): (r: string)
    ensures h.ipProtocol != IPPROTO_TCP && h.ipProtocol != IPPROTO_UDP <==> r == []
  {
    if h.ipProtocol != IPPROTO_UDP && h.ipProtocol != IPPROTO_TCP then ""
    else
      var local := if Has(h.flags, FLAG_LOCAL_PORT_SET) then portText(h.localPort) else "-";
      var remote := if Has(h.flags, FLAG_REMOTE_PORT_SET) then portText(h.remotePort) else "-";
      ", ports: " + local + " / " + remote
  }

  /** The text before the first `sep` and the text after it. */
  function SplitAt(s: string, sep: char): (r: (string, string))
  {
    if s == [] then ([], [])
    else if s[0] == sep then ([], s[1..])
    else var (a, b) := SplitAt(s[1..], sep); ([s[0]] + a, b)
  }

  lemma {:induction false} SplitAtFirst(a: string, sep: char, b: string)
    requires sep !in a
    ensures SplitAt(a + [sep] + b, sep) == (a, b)
  {
    if a == [] {
      assert ([sep] + b)[1..] == b;
    } else {
      assert (a + [sep] + b)[1..] == a[1..] + [sep] + b;
      SplitAtFirst(a[1..], sep, b);
      assert (a + [sep] + b)[0] == a[0] != sep;
      assert [a[0]] + a[1..] == a;
    }
  }

  const PORTS_LEAD: string := ", ports: "

  /** Reads the local and remote fields back out of a `get_ports` text. */
  function PortFields(s: string): Option<(string, string)>
  {
    var (a, b) := SplitAt(s, '/');
    if |a| > |PORTS_LEAD| && a[..|PORTS_LEAD|] == PORTS_LEAD && a[|a| - 1] == ' ' && b != [] && b[0] == ' '
    then Some((a[|PORTS_LEAD|..|a| - 1], b[1..]))
    else None
  }

  /**
   * For TCP and UDP, when no port text is `"-"` or holds a `'/'`, both
   * fields read back: each is `"-"` exactly when its flag is clear, and
   * otherwise the text of that port.
   */
  lemma GetPortsReadsBack(h: Header, portText: nat -> string)
    requires h.ipProtocol == IPPROTO_TCP || h.ipProtocol == IPPROTO_UDP
    requires forall p :: portText(p) != "-" && '/' !in portText(p)
    ensures PortFields(GetPorts(h, portText)).Some?
    ensures var (l, r) := PortFields(GetPorts(h, portText)).value;
            (l == "-" <==> !Has(h.flags, FLAG_LOCAL_PORT_SET)) && (r == "-" <==> !Has(h.flags, FLAG_REMOTE_PORT_SET))
            && (Has(h.flags, FLAG_LOCAL_PORT_SET) ==> l == portText(h.localPort))
            && (Has(h.flags, FLAG_REMOTE_PORT_SET) ==> r == portText(h.remotePort))
  {
    var local := if Has(h.flags, FLAG_LOCAL_PORT_SET) then portText(h.localPort) else "-";
    var remote := if Has(h.flags, FLAG_REMOTE_PORT_SET) then portText(h.remotePort) else "-";
    var a := PORTS_LEAD + local + " ";
    assert GetPorts(h, portText) == a + ['/'] + (" " + remote);
    SplitAtFirst(a, '/', " " + remote);
    assert a[..|PORTS_LEAD|] == PORTS_LEAD && a[|PORTS_LEAD|..|a| - 1] == local;
    assert (" " + remote)[1..] == remote;
  }

  // ------------------------------------------------------ address checks

  /** The local or remote address as printed: its text, or `"-"` without its flag. */
  function AddrText(h: Header, local: bool): string
  {
    if local then (if Has(h.flags, FLAG_LOCAL_ADDR_SET) then h.localAddr else "-")
    else (if Has(h.flags, FLAG_REMOTE_ADDR_SET) then h.remoteAddr else "-")
  }

  /** An address text other than the placeholder that the exclusion list names. */
  predicate AddrExcluded(a: string, cfg: Config)
  {
    (a == [] || a[0] != '-') && a in cfg.excludedAddresses
  }

  /** What both address checks demand of the header before printing. */
  predicate AddressUsable(h: Header, version: nat, cfg: Config)
  {
    h.ipVersion == version && Has(h.flags, FLAG_IP_VERSION_SET) &&
    (Has(h.flags, FLAG_LOCAL_ADDR_SET) || Has(h.flags, FLAG_REMOTE_ADDR_SET)) &&
    !AddrExcluded(AddrText(h, true), cfg) && !AddrExcluded(AddrText(h, false), cfg)
  }

  /**
   * `print_addresses_ipv4`: the address line it prints, or `None` when it
   * answers FALSE. An inbound event shows remote before local.
   */
  function AddressesV4(h: Header, directionIn: bool, cfg: Config, portText: nat -> string): (r: Option<string>)
    ensures r.Some? <==> AddressUsable(h, IP_V4, cfg)
  {
    if !AddressUsable(h, IP_V4, cfg) then None
    else
      var local, remote := AddrText(h, true), AddrText(h, false);
      var ports := GetPorts(h, portText);
      Some(if directionIn then "addr:    " + remote + " -> " + local + ports + "\n"
           else "addr:    " + local + " -> " + remote + ports + "\n")
  }

  /** The `%scope` suffix of an IPv6 address: `_itoa` of the scope id as an `int`. */
  function Scope(h: Header): string
  {
    if Has(h.flags, FLAG_SCOPE_ID_SET) then "%" + SignedDecimal(ToInt32(h.scopeId)) else ""
  }

  /**
   * `print_addresses_ipv6`: like the IPv4 check, with the scope attached to
   * the local address whichever way the event goes.
   */
  function AddressesV6(h: Header, directionIn: bool, cfg: Config, portText: nat -> string): (r: Option<string>)
    ensures r.Some? <==> AddressUsable(h, IP_V6, cfg)
  {
    if !AddressUsable(h, IP_V6, cfg) then None
    else
      var local, remote := AddrText(h, true), AddrText(h, false);
      var ports := GetPorts(h, portText);
      Some(if directionIn then "addr:   " + remote + " -> " + local + Scope(h) + ports + "\n"
           else "addr:   " + local + Scope(h) + " -> " + remote + ports + "\n")
  }

  /** One event can pass at most one of the two address checks. */
  lemma AddressChecksExclusive(h: Header, directionIn: bool, cfg: Config, portText: nat -> string)
    ensures !(AddressesV4(h, directionIn, cfg, portText).Some? && AddressesV6(h, directionIn, cfg, portText).Some?)
  {
  }

  /** The direction shows in the order of the addresses: inbound reads remote -> local. */
  lemma AddressOrder(h: Header, cfg: Config, portText: nat -> string)
    requires AddressUsable(h, IP_V4, cfg)
    ensures var a := "addr:    " + AddrText(h, false) + " -> " + AddrText(h, true);
            var b := "addr:    " + AddrText(h, true) + " -> " + AddrText(h, false);
            AddressesV4(h, true, cfg, portText).value[..|a|] == a &&
            AddressesV4(h, false, cfg, portText).value[..|b|] == b
  {
    var ports := GetPorts(h, portText);
    var a := "addr:    " + AddrText(h, false) + " -> " + AddrText(h, true);
    var b := "addr:    " + AddrText(h, true) + " -> " + AddrText(h, false);
    assert AddressesV4(h, true, cfg, portText).value == a + (ports + "\n");
    assert AddressesV4(h, false, cfg, portText).value == b + (ports + "\n");
  }

  // --------------------------------------------------------- print_app_id

  predicate IsSlash(c: char)
  {
    c == '\\' || c == '/'
  }

  /** The file part of a path: what follows its last slash. */
  function Basename(path: string): (r: string)
    ensures |r| <= |path| && r == path[|path| - |r|..]
    ensures forall i | 0 <= i < |r| :: !IsSlash(r[i])
    ensures |r| < |path| ==> IsSlash(path[|path| - |r| - 1])
  {
    if path == [] || IsSlash(path[|path| - 1]) then []
    else Basename(path[..|path| - 1]) + [path[|path| - 1]]
  }

  /** The program name the check works on: `"?"` when conversion failed, else the mapped path. */
  function AppName(h: Header): string
  {
    match h.appName
    case None => "?"
    case Some(n) => VolumeToPath(n)
  }

  /**
   * `print_app_id`: an event without an `appId` cannot be excluded by it;
   * without `show_all` only events of `fw_module` pass; with it, events of
   * an excluded program (short or full name) do not.
   */
  function AppPrinted(h: Header, cfg: Config): (r: bool)
    ensures !Has(h.flags, FLAG_APP_ID_SET) || !h.hasAppId ==> r
    ensures Has(h.flags, FLAG_APP_ID_SET) && h.hasAppId && cfg.showAll ==>
              (r <==> AppName(h) !in cfg.excludedPrograms && Basename(AppName(h)) !in cfg.excludedPrograms)
    ensures Has(h.flags, FLAG_APP_ID_SET) && h.hasAppId && !cfg.showAll ==>
              (r <==> EqualsIgnoreCase(cfg.fwModule, AppName(h)) || EqualsIgnoreCase(cfg.fwModule, Basename(AppName(h))))
  {
    if !Has(h.flags, FLAG_APP_ID_SET) || !h.hasAppId then true
    else
      var name := AppName(h);
      var base := Basename(name);
      if !cfg.showAll then EqualsIgnoreCase(cfg.fwModule, name) || EqualsIgnoreCase(cfg.fwModule, base)
      else !(base in cfg.excludedPrograms || name in cfg.excludedPrograms)
  }

  // ------------------------------------------------ print_user_id / package

  /**
   * The account test of `print_user_id` as written: with `show_user` set,
   * the logged-on user's events are the ones refused.
   */
  predicate UserShown(cfg: Config, account: string)
  {
    !(cfg.showUser && EqualsIgnoreCase(account, cfg.loggedOnUser))
  }

  /** As written, `show_user` hides the logged-on user and shows every other account. */
  lemma UserShownHidesOwnUser(cfg: Config, account: string)
    requires cfg.showUser
    ensures !UserShown(cfg, cfg.loggedOnUser)
    ensures !EqualsIgnoreCase(account, cfg.loggedOnUser) ==> UserShown(cfg, account)
  {
  }

  /** The account test as its comment states it: with `show_user`, that user only. */
  predicate UserShownIntended(cfg: Config, account: string)
  {
    !cfg.showUser || EqualsIgnoreCase(account, cfg.loggedOnUser)
  }

  /** With `show_user` the intended test passes exactly the logged-on user, and everyone without it. */
  lemma UserShownIntendedOnlyOwnUser(cfg: Config, account: string)
    ensures cfg.showUser ==> (UserShownIntended(cfg, account) <==> EqualsIgnoreCase(account, cfg.loggedOnUser))
    ensures !cfg.showUser ==> UserShownIntended(cfg, account) && UserShown(cfg, account)
    ensures cfg.showUser ==> UserShownIntended(cfg, cfg.loggedOnUser) != UserShown(cfg, cfg.loggedOnUser)
  {
    assert EqualsIgnoreCase(cfg.loggedOnUser, cfg.loggedOnUser);
  }

  /**
   * `print_user_id` on the SID cache `entries`: no user SID passes and
   * leaves the cache; otherwise the SID is looked up (and cached) and its
   * account tested.
   */
  function UserVerdict(h: Header, cfg: Config, entries: seq<SidEntry>, nat_: Natives): (r: (bool, seq<SidEntry>))
  {
    if !Has(h.flags, FLAG_USER_ID_SET) || h.userId.None? then (true, entries)
    else
      var (after, se) := LookupSid(entries, h.userId.value, nat_.sidString, nat_.accountOf);
      (UserShown(cfg, se.account), after)
  }

  /**
   * `print_package_id`: no package SID passes; otherwise the SID is looked
   * up and passes when it has a string form that is not the NULL SID (any
   * string form with `show_all`).
   */
  function PackageVerdict(h: Header, cfg: Config, entries: seq<SidEntry>, nat_: Natives): (r: (bool, seq<SidEntry>))
  {
    if !Has(h.flags, FLAG_PACKAGE_ID_SET) || h.packageSid.None? then (true, entries)
    else
      var (after, se) := LookupSid(entries, h.packageSid.value, nat_.sidString, nat_.accountOf);
      (se.sidStr.Some? && (cfg.showAll || se.sidStr.value != NULL_SID), after)
  }

  /** The user and package checks only ever add to the SID cache, keeping it duplicate-free. */
  lemma VerdictsKeepCache(h: Header, cfg: Config, entries: seq<SidEntry>, nat_: Natives)
    requires Unique(SidKeys(entries))
    ensures var (_, a) := UserVerdict(h, cfg, entries, nat_);
            Unique(SidKeys(a)) && |entries| <= |a| <= |entries| + 1 && a[..|entries|] == entries
    ensures var (_, a) := PackageVerdict(h, cfg, entries, nat_);
            Unique(SidKeys(a)) && |entries| <= |a| <= |entries| + 1 && a[..|entries|] == entries
  {
    if Has(h.flags, FLAG_USER_ID_SET) && h.userId.Some? {
      LookupSidRules(entries, h.userId.value, nat_.sidString, nat_.accountOf);
    }
    if Has(h.flags, FLAG_PACKAGE_ID_SET) && h.packageSid.Some? {
      LookupSidRules(entries, h.packageSid.value, nat_.sidString, nat_.accountOf);
    }
  }

  // --------------------------------------------------------- the callback

  /** The four event types the callback handles. */
  predicate Handled(eventType: nat)
  {
    eventType == TYPE_CLASSIFY_DROP || eventType == TYPE_CLASSIFY_ALLOW ||
    eventType == TYPE_CAPABILITY_DROP || eventType == TYPE_CAPABILITY_ALLOW
  }

  /** The IP-version gate: a flagged version the configuration does not show. */
  predicate VersionGated(h: Header, cfg: Config)
  {
    Has(h.flags, FLAG_IP_VERSION_SET) &&
    ((h.ipVersion == IP_V4 && !cfg.showIpv4) || (h.ipVersion == IP_V6 && !cfg.showIpv6))
  }

  /**
   * `direction_in`: capability events are inbound; a classify event is
   * inbound unless its direction says outbound, since the early API levels
   * leave the direction unset.
   */
  function DirectionIn(ev: Event): (r: bool)
    requires Handled(ev.eventType)
    ensures (ev.eventType == TYPE_CLASSIFY_DROP || ev.eventType == TYPE_CLASSIFY_ALLOW) ==>
              (r <==> ev.msDirection != DIR_OUT && ev.msDirection != DIR_OUTBOUND)
    ensures (ev.eventType == TYPE_CAPABILITY_DROP || ev.eventType == TYPE_CAPABILITY_ALLOW) ==> r
  {
    if ev.eventType == TYPE_CLASSIFY_DROP || ev.eventType == TYPE_CLASSIFY_ALLOW then
      var dirIn := ev.msDirection == DIR_IN || ev.msDirection == DIR_INBOUND;
      var dirOut := !dirIn && (ev.msDirection == DIR_OUT || ev.msDirection == DIR_OUTBOUND);
      dirIn || !dirOut
    else true
  }

  /** What became of an event. */
  datatype Outcome = Gated | Unhandled | Emitted | Ignored

  /** The pieces the decision is made of. */
  datatype Checks = Checks(address: bool, program: bool, user: bool, package: bool)

  /** The checks of a handled, ungated event, with the SID cache after them. */
  function EventChecks(ev: Event, cfg: Config, entries: seq<SidEntry>, nat_: Natives): (r: (Checks, seq<SidEntry>))
    requires Handled(ev.eventType)
  {
    var dirIn := DirectionIn(ev);
    var address := AddressesV4(ev.header, dirIn, cfg, nat_.portText).Some? ||
                   AddressesV6(ev.header, dirIn, cfg, nat_.portText).Some?;
    var program := AppPrinted(ev.header, cfg);
    var (user, e1) := UserVerdict(ev.header, cfg, entries, nat_);
    var (package, e2) := PackageVerdict(ev.header, cfg, e1, nat_);
    (Checks(address, program, user, package), e2)
  }

  /** The decision: the address counts only with the program and the user. */
  predicate Accepted(c: Checks)
  {
    (c.address && c.user && c.program) || c.program || c.user || c.package
  }

  /** The whole callback as a function: the outcome and the SID cache after it. */
  function Callback(ev: Event, cfg: Config, entries: seq<SidEntry>, nat_: Natives): (r: (Outcome, seq<SidEntry>))
  {
    if VersionGated(ev.header, cfg) then (Gated, entries)
    else if !Handled(ev.eventType) then (Unhandled, entries)
    else
      var (c, after) := EventChecks(ev, cfg, entries, nat_);
      (if Accepted(c) then Emitted else Ignored, after)
  }

  /** Once the checks are known, the outcome follows from them alone. */
  lemma CallbackFromChecks(ev: Event, cfg: Config, entries: seq<SidEntry>, nat_: Natives, c: Checks, after: seq<SidEntry>)
    requires !VersionGated(ev.header, cfg) && Handled(ev.eventType)
    requires c.address == (AddressesV4(ev.header, DirectionIn(ev), cfg, nat_.portText).Some? ||
                           AddressesV6(ev.header, DirectionIn(ev), cfg, nat_.portText).Some?)
    requires c.program == AppPrinted(ev.header, cfg)
    requires (c.user, after) == (UserVerdict(ev.header, cfg, entries, nat_).0, PackageVerdict(ev.header, cfg, UserVerdict(ev.header, cfg, entries, nat_).1, nat_).1)
    requires c.package == PackageVerdict(ev.header, cfg, UserVerdict(ev.header, cfg, entries, nat_).1, nat_).0
    ensures Callback(ev, cfg, entries, nat_) == (if Accepted(c) then Emitted else Ignored, after)
  {
  }

  /** Acceptance is program || user || package: the address result never decides. */
  lemma AcceptanceIgnoresAddress(c: Checks)
    ensures Accepted(c) <==> c.program || c.user || c.package
    ensures Accepted(c) == Accepted(c.(address := !c.address))
  {
  }

  /**
   * The callback rules: a gated version and an unhandled type leave the
   * SID cache alone; an event passes on its program, user or package
   * checks only; and an event without an `appId` flag is always emitted.
   */
  lemma CallbackRules(ev: Event, cfg: Config, entries: seq<SidEntry>, nat_: Natives)
    ensures VersionGated(ev.header, cfg) ==> Callback(ev, cfg, entries, nat_) == (Gated, entries)
    ensures !VersionGated(ev.header, cfg) && !Handled(ev.eventType) ==> Callback(ev, cfg, entries, nat_) == (Unhandled, entries)
    ensures !VersionGated(ev.header, cfg) && Handled(ev.eventType) ==>
              var (c, _) := EventChecks(ev, cfg, entries, nat_);
              (Callback(ev, cfg, entries, nat_).0 == Emitted <==> c.program || c.user || c.package)
    ensures !VersionGated(ev.header, cfg) && Handled(ev.eventType) && !Has(ev.header.flags, FLAG_APP_ID_SET) ==>
              Callback(ev, cfg, entries, nat_).0 == Emitted
  {
  }

  /** An event with no flag set at all, of a handled type, is emitted. */
  lemma BareEventEmitted(ev: Event, cfg: Config, entries: seq<SidEntry>, nat_: Natives)
    requires ev.header.flags == 0 && Handled(ev.eventType)
    ensures Callback(ev, cfg, entries, nat_).0 == Emitted
  {
    assert !Has(ev.header.flags, FLAG_APP_ID_SET);
    assert !VersionGated(ev.header, cfg);
  }

  /** `fw_check_ignore`'s test: only drop events are interesting without `show_all`. */
  predicate CheckIgnored(eventType: nat, showAll: bool)
  {
    !(showAll || eventType == TYPE_CLASSIFY_DROP || eventType == TYPE_CAPABILITY_DROP)
  }

  /** Drop events always pass; with `show_all` everything does. */
  lemma CheckIgnoredCases(eventType: nat, showAll: bool)
    ensures CheckIgnored(eventType, showAll) <==>
              !showAll && eventType != TYPE_CLASSIFY_DROP && eventType != TYPE_CAPABILITY_DROP
    ensures CheckIgnored(TYPE_CLASSIFY_ALLOW, false) && !CheckIgnored(TYPE_CLASSIFY_DROP, false)
  {
  }

  /** The monitor's counters and its SID cache. */
  class Monitor {
    /** `fw_num_events` and `fw_num_ignored`, 32-bit `DWORD`s. */
    var numEvents: nat
    var numIgnored: nat
    var sids: SidCache

    ghost predicate Valid()
      reads this, sids
    {
      numEvents < U32_MOD && numIgnored < U32_MOD && sids.Valid()
    }

    constructor ()
      ensures Valid() && numEvents == 0 && numIgnored == 0 && sids.entries == [] && fresh(sids)
    {
      numEvents, numIgnored := 0, 0;
      sids := new SidCache();
    }

    /** `fw_check_ignore`: counts an uninteresting event as ignored. */
    method CheckIgnore(eventType: nat, showAll: bool) returns (ignore: bool)
      requires Valid()
      modifies this
      ensures Valid() && sids == old(sids) && numEvents == old(numEvents)
      ensures ignore == CheckIgnored(eventType, showAll)
      ensures numIgnored == if ignore then IncU32(old(numIgnored)) else old(numIgnored)
    {
      if showAll || eventType == TYPE_CLASSIFY_DROP || eventType == TYPE_CAPABILITY_DROP {
        return false;
      }
      numIgnored := IncU32(numIgnored);
      return true;
    }

    /** `print_user_id`, with the lookup going through the SID cache. */
    method UserId(h: Header, cfg: Config, nat_: Natives) returns (shown: bool)
      requires Valid()
      modifies sids
      ensures Valid()
      ensures (shown, sids.entries) == UserVerdict(h, cfg, old(sids.entries), nat_)
    {
      if !Has(h.flags, FLAG_USER_ID_SET) || h.userId.None? {
        return true;
      }
      var se := sids.LookupOrAdd(h.userId.value, nat_.sidString, nat_.accountOf);
      if cfg.showUser && EqualsIgnoreCase(se.account, cfg.loggedOnUser) {
        return false;
      }
      return true;
    }

    /** `print_package_id`, with the lookup going through the SID cache. */
    method PackageId(h: Header, cfg: Config, nat_: Natives) returns (shown: bool)
      requires Valid()
      modifies sids
      ensures Valid()
      ensures (shown, sids.entries) == PackageVerdict(h, cfg, old(sids.entries), nat_)
    {
      if !Has(h.flags, FLAG_PACKAGE_ID_SET) || h.packageSid.None? {
        return true;
      }
      var se := sids.LookupOrAdd(h.packageSid.value, nat_.sidString, nat_.accountOf);
      if se.sidStr.Some? && (cfg.showAll || se.sidStr.value != NULL_SID) {
        return true;
      }
      return false;
    }

    /** The checks of `fw_event_callback`, in its order: addresses, program, user, package. */
    method RunChecks(ev: Event, cfg: Config, nat_: Natives) returns (c: Checks)
      requires Valid() && Handled(ev.eventType)
      modifies sids
      ensures Valid()
      ensures c.address == (AddressesV4(ev.header, DirectionIn(ev), cfg, nat_.portText).Some? ||
                            AddressesV6(ev.header, DirectionIn(ev), cfg, nat_.portText).Some?)
      ensures c.program == AppPrinted(ev.header, cfg)
      ensures (c.user, sids.entries) == (UserVerdict(ev.header, cfg, old(sids.entries), nat_).0,
                                         PackageVerdict(ev.header, cfg, UserVerdict(ev.header, cfg, old(sids.entries), nat_).1, nat_).1)
      ensures c.package == PackageVerdict(ev.header, cfg, UserVerdict(ev.header, cfg, old(sids.entries), nat_).1, nat_).0
    {
      var h := ev.header;
      var dirIn := DirectionIn(ev);
      var address := AddressesV4(h, dirIn, cfg, nat_.portText).Some? || AddressesV6(h, dirIn, cfg, nat_.portText).Some?;
      var program := AppPrinted(h, cfg);
      var user := UserId(h, cfg, nat_);
      var package := PackageId(h, cfg, nat_);
      c := Checks(address, program, user, package);
    }

    /**
     * `fw_event_callback`: a gated event and a rejected one count as
     * ignored, an accepted one as an event, and an unhandled type counts
     * as neither.
     */
    method EventCallback(ev: Event, cfg: Config, nat_: Natives) returns (outcome: Outcome)
      requires Valid()
      modifies this, sids
      ensures Valid() && sids == old(sids)
      ensures (outcome, sids.entries) == Callback(ev, cfg, old(sids.entries), nat_)
      ensures numEvents == if outcome == Emitted then IncU32(old(numEvents)) else old(numEvents)
      ensures numIgnored == if outcome == Gated || outcome == Ignored then IncU32(old(numIgnored)) else old(numIgnored)
    {
      var h := ev.header;
      if Has(h.flags, FLAG_IP_VERSION_SET) {
        if (h.ipVersion == IP_V4 && !cfg.showIpv4) || (h.ipVersion == IP_V6 && !cfg.showIpv6) {
          numIgnored := IncU32(numIgnored);
          return Gated;
        }
      }
      if !Handled(ev.eventType) {
        return Unhandled;
      }
      ghost var e0 := sids.entries;
      var c := RunChecks(ev, cfg, nat_);
      CallbackFromChecks(ev, cfg, e0, nat_, c, sids.entries);
      var address := c.address && c.user && c.program;
      if address || c.program || c.user || c.package {
        numEvents := IncU32(numEvents);
        outcome := Emitted;
      } else {
        numIgnored := IncU32(numIgnored);
        outcome := Ignored;
      }
    }
  }
}
