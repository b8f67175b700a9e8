/** The list of hosts that is shown, and the look-up that turns a position in it back into a host. */
module HostList {
  import opened Wrappers

  datatype Found = Found(
    name: string, mac: string, address: string, ps5: bool, state: string, app: string, titleId: string)

  datatype Manual = Manual(id: int, host: string, registered: bool, mac: string)

  datatype Registered = Registered(nickname: string, mac: string, ps5: bool)

  datatype Psn = Psn(duid: string, name: string, ps5: bool)

  /** Discovery results, settings and PSN hosts; `psn` is sorted by duid, `hidden` gives the nicknames of the
      hidden hosts by their MAC address. */
  datatype World = World(
    discovered: seq<Found>,
    manual: seq<Manual>,
    psn: seq<Psn>,
    waking: seq<string>,
    registered: map<string, Registered>,
    byNickname: map<string, Registered>,
    nicknameDuids: map<string, string>,
    ps4sRegistered: nat,
    hidden: map<string, string>)

  /** One entry of the list. */
  datatype Row = Row(
    discovered: bool,
    manual: bool,
    name: string,
    duid: string,
    address: string,
    ps5: Option<bool>,
    mac: Option<string>,
    state: Option<string>,
    app: Option<string>,
    titleId: Option<string>,
    registered: bool,
    display: bool)

  datatype Server =
    | Nothing
    | Server(
        discovered: bool,
        found: Option<Found>,
        manual: Option<Manual>,
        psn: Option<Psn>,
        duid: string,
        registered: bool,
        registeredHost: Option<Registered>)

  const MAIN_PS4: string := "Main PS4 Console"

  /** The server is the host that the row shows. */
  predicate Denotes(s: Server, r: Row) {
    && s.Server?
    && s.discovered == r.discovered && s.registered == r.registered && s.duid == r.duid
    && s.manual.Some? == r.manual
    && (if r.discovered then
          s.found.Some? && s.found.value.name == r.name && s.found.value.address == r.address
          && Some(s.found.value.ps5) == r.ps5 && Some(s.found.value.mac) == r.mac
          && Some(s.found.value.state) == r.state && Some(s.found.value.app) == r.app
          && Some(s.found.value.titleId) == r.titleId
        else if r.manual then
          && s.manual.value.host == r.address
          && (if r.registered then s.registeredHost.Some? && s.registeredHost.value.nickname == r.name
              else r.name == r.address)
        else
          s.psn.Some? && s.psn.value.name == r.name && Some(s.psn.value.ps5) == r.ps5)
  }

  // ---------------------------------------------------------------------------------------------
  // Discovered and manual hosts

  predicate SameHost(m: Manual, h: Found) {
    m.registered && m.mac == h.mac && m.host == h.address
  }

  function FirstSame(ms: seq<Manual>, h: Found): (r: Option<Manual>)
    ensures r.Some? <==> exists m :: m in ms && SameHost(m, h)
  {
    if ms == [] then None else if SameHost(ms[0], h) then Some(ms[0]) else FirstSame(ms[1..], h)
  }

  /** The id under which an unregistered console can be reached through PSN. */
  function DuidFor(w: World, h: Found): string {
    if h.mac in w.registered then ""
    else if h.name in w.nicknameDuids then w.nicknameDuids[h.name]
    else if !h.ps5 && MAIN_PS4 in w.nicknameDuids then w.nicknameDuids[MAIN_PS4]
    else ""
  }

  /** A discovered host is shown unless it was hidden when its turn came. */
  function RowOfFound(w: World, h: Found, hidden: bool): Row {
    Row(true, exists m :: m in w.manual && SameHost(m, h), h.name, DuidFor(w, h), h.address,
        Some(h.ps5), Some(h.mac), Some(h.state), Some(h.app), Some(h.titleId), h.mac in w.registered, !hidden)
  }

  function RegistrationOf(w: World, m: Manual): Option<Registered> {
    if m.registered && m.mac in w.registered then Some(w.registered[m.mac]) else None
  }

  function RowOfManual(w: World, m: Manual): Row {
    var display := !exists h :: h in w.discovered && SameHost(m, h);
    match RegistrationOf(w, m)
    case Some(r) => Row(false, true, r.nickname, "", m.host, Some(r.ps5), Some(r.mac), Some("unknown"), None, None, true, display)
    case None => Row(false, true, m.host, "", m.host, None, None, Some("unknown"), None, None, false, display)
  }

  function ServerOfFound(w: World, h: Found): Server {
    Server(true, Some(h), FirstSame(w.manual, h), None, DuidFor(w, h), h.mac in w.registered,
           if h.mac in w.registered then Some(w.registered[h.mac]) else None)
  }

  function ServerOfManual(w: World, m: Manual): Server {
    Server(false, None, Some(m), None, "", RegistrationOf(w, m).Some?, RegistrationOf(w, m))
  }

  // ---------------------------------------------------------------------------------------------
  // Hidden hosts

  /** The address of a host that was never set. */
  const NULL_MAC: string := "000000000000"

  /** Listing a discovered host: a registered one is taken out of the hidden hosts, and the nickname of a hidden
      one is brought up to date.  The nickname is looked up by address after the host was taken out, so that
      the entry written back is then the one of a host that was never set. */
  function HideStep(w: World, hidden: map<string, string>, h: Found): map<string, string> {
    if h.mac !in hidden then hidden
    else if h.mac in w.registered then
      if h.name == "" then hidden - {h.mac} else (hidden - {h.mac})[NULL_MAC := h.name]
    else hidden[h.mac := h.name]
  }

  function HiddenAfter(w: World, hs: seq<Found>): map<string, string> {
    if hs == [] then w.hidden else HideStep(w, HiddenAfter(w, hs[..|hs| - 1]), hs[|hs| - 1])
  }

  /** Listing leaves exactly the hosts hidden that were hidden and are not both discovered and registered. */
  lemma {:induction false} HiddenAfterListing(w: World, hs: seq<Found>, mac: string)
    requires mac != NULL_MAC
    ensures mac in HiddenAfter(w, hs) <==>
              mac in w.hidden && !(mac in w.registered && exists h :: h in hs && h.mac == mac)
    ensures mac in HiddenAfter(w, hs) && (forall h :: h in hs ==> h.mac != mac) ==>
              HiddenAfter(w, hs)[mac] == w.hidden[mac]
  {
    if hs != [] {
      var init, last := hs[..|hs| - 1], hs[|hs| - 1];
      HiddenAfterListing(w, init, mac);
      assert forall h :: h in hs <==> h in init || h == last;
    }
  }

  /** A hidden host has the name under which it was discovered last. */
  lemma NicknameAfterListing(w: World, hs: seq<Found>, h: Found)
    requires h.mac != NULL_MAC && h.mac in w.hidden && h.mac !in w.registered
    ensures h.mac in HiddenAfter(w, hs + [h]) && HiddenAfter(w, hs + [h])[h.mac] == h.name
  {
    HiddenAfterListing(w, hs, h.mac);
    assert (hs + [h])[..|hs|] == hs;
  }

  /** The host that is taken out of the hidden hosts at position i. */
  predicate Unhides(w: World, hs: seq<Found>, i: nat)
    requires i < |hs|
  {
    && hs[i].mac in w.hidden && hs[i].mac in w.registered && hs[i].name != ""
    && forall j :: 0 <= j < i ==> hs[j].mac != hs[i].mac
  }

  /** Listing makes up a hidden host without an address exactly if it takes a host with a name out. */
  lemma {:induction false} NullHostAppears(w: World, hs: seq<Found>)
    requires NULL_MAC !in w.hidden && forall h :: h in hs ==> h.mac != NULL_MAC
    ensures NULL_MAC in HiddenAfter(w, hs) <==> exists i :: 0 <= i < |hs| && Unhides(w, hs, i)
  {
    if hs != [] {
      var init, last := hs[..|hs| - 1], hs[|hs| - 1];
      assert last in hs && forall h :: h in init ==> h in hs;
      NullHostAppears(w, init);
      HiddenAfterListing(w, init, last.mac);
      assert forall i :: 0 <= i < |init| ==> (Unhides(w, hs, i) <==> Unhides(w, init, i));
      if Unhides(w, hs, |init|) {
        forall h | h in init
          ensures h.mac != last.mac
        {
          var j :| 0 <= j < |init| && init[j] == h;
          assert hs[j] == h;
        }
      }
    }
  }

  // ---------------------------------------------------------------------------------------------
  // PSN hosts

  predicate IsFound(w: World, name: string) {
    exists h :: h in w.discovered && h.name == name
  }

  function RegisteredPs4s(w: World, hs: seq<Found>): nat {
    if hs == [] then 0
    else
      var last := hs[|hs| - 1];
      RegisteredPs4s(w, hs[..|hs| - 1]) + if !last.ps5 && last.mac in w.registered then 1 else 0
  }

  /** Left out of the list although it is not discovered. */
  predicate OnlyListHides(w: World, p: Psn) {
    && !IsFound(w, p.name)
    && (p.name in w.waking || (p.name == MAIN_PS4 && RegisteredPs4s(w, w.discovered) >= w.ps4sRegistered))
  }

  predicate Listed(w: World, p: Psn) {
    !IsFound(w, p.name) && !OnlyListHides(w, p)
  }

  function ListedPsn(w: World, ps: seq<Psn>): seq<Psn> {
    if ps == [] then [] else (if Listed(w, ps[0]) then [ps[0]] else []) + ListedPsn(w, ps[1..])
  }

  /** The PSN hosts that the look-up counts. */
  function CountedPsn(w: World, ps: seq<Psn>): (r: seq<Psn>)
    ensures |r| <= |ps|
  {
    if ps == [] then [] else (if !IsFound(w, ps[0].name) then [ps[0]] else []) + CountedPsn(w, ps[1..])
  }

  lemma {:induction false} ListedPsnAppend(w: World, a: seq<Psn>, b: seq<Psn>)
    ensures ListedPsn(w, a + b) == ListedPsn(w, a) + ListedPsn(w, b)
  {
    if a == [] {
      assert a + b == b;
    } else {
      assert (a + b)[1..] == a[1..] + b;
      ListedPsnAppend(w, a[1..], b);
    }
  }

  lemma {:induction false} CountedPsnAppend(w: World, a: seq<Psn>, b: seq<Psn>)
    ensures CountedPsn(w, a + b) == CountedPsn(w, a) + CountedPsn(w, b)
  {
    if a == [] {
      assert a + b == b;
    } else {
      assert (a + b)[1..] == a[1..] + b;
      CountedPsnAppend(w, a[1..], b);
    }
  }

  function RowOfPsn(p: Psn): Row {
    Row(false, false, p.name, p.duid, "", Some(p.ps5), None, None, None, None, true, true)
  }

  function ServerOfPsn(w: World, p: Psn): Server {
    Server(false, None, None, Some(p), p.duid, true,
           if p.name in w.byNickname then Some(w.byNickname[p.name]) else None)
  }

  // ---------------------------------------------------------------------------------------------
  // The list and the look-up

  function RowsOfFound(w: World, hs: seq<Found>): (rows: seq<Row>)
    ensures |rows| == |hs|
  {
    if hs == [] then []
    else
      var init, last := hs[..|hs| - 1], hs[|hs| - 1];
      RowsOfFound(w, init) + [RowOfFound(w, last, last.mac in HiddenAfter(w, init))]
  }

  lemma {:induction false} RowOfFoundAt(w: World, hs: seq<Found>, i: nat)
    requires i < |hs|
    ensures RowsOfFound(w, hs)[i] == RowOfFound(w, hs[i], hs[i].mac in HiddenAfter(w, hs[..i]))
  {
    if i < |hs| - 1 {
      RowOfFoundAt(w, hs[..|hs| - 1], i);
      assert hs[..|hs| - 1][..i] == hs[..i];
    }
  }

  function RowsOfManual(w: World, ms: seq<Manual>): seq<Row> {
    seq(|ms|, i requires 0 <= i < |ms| => RowOfManual(w, ms[i]))
  }

  function RowsOfPsn(ps: seq<Psn>): seq<Row> {
    seq(|ps|, i requires 0 <= i < |ps| => RowOfPsn(ps[i]))
  }

  function Rows(w: World): seq<Row> {
    RowsOfFound(w, w.discovered) + RowsOfManual(w, w.manual) + RowsOfPsn(ListedPsn(w, w.psn))
  }

  function ServerAt(w: World, index: int): Server {
    var psn := CountedPsn(w, w.psn);
    var m, p := index - |w.discovered|, index - |w.discovered| - |w.manual|;
    if index < 0 then Nothing
    else if m < 0 then ServerOfFound(w, w.discovered[index])
    else if p < 0 then ServerOfManual(w, w.manual[m])
    else if p < |psn| then ServerOfPsn(w, psn[p])
    else Nothing
  }

  // ---------------------------------------------------------------------------------------------
  // What the rows say, in terms of the world's data

  /** The user has hidden the host, and no earlier entry of the same host has taken it out of the hidden ones. */
  predicate StillHidden(w: World, i: nat)
    requires i < |w.discovered|
  {
    var mac := w.discovered[i].mac;
    mac in w.hidden && !(mac in w.registered && exists j :: 0 <= j < i && w.discovered[j].mac == mac)
  }

  /** A discovered host is displayed unless it is still hidden; it is manual if a registered manual host has its
      address and its MAC address; and an unregistered one has the duid of the PSN host of its name or, if it is no
      PS5, of the entry for PS4 consoles. */
  lemma FoundRowMeaning(w: World, i: nat)
    requires i < |w.discovered| && w.discovered[i].mac != NULL_MAC
    ensures var r, h := Rows(w)[i], w.discovered[i];
            && (r.display <==> !StillHidden(w, i))
            && r.discovered && r.name == h.name && r.address == h.address && r.ps5 == Some(h.ps5) && r.mac == Some(h.mac)
            && r.state == Some(h.state) && r.app == Some(h.app) && r.titleId == Some(h.titleId)
            && (r.registered <==> h.mac in w.registered)
            && (r.manual <==> exists m :: m in w.manual && m.registered && m.mac == h.mac && m.host == h.address)
            && (h.mac in w.registered ==> r.duid == "")
            && (h.mac !in w.registered && h.name in w.nicknameDuids ==> r.duid == w.nicknameDuids[h.name])
            && (h.mac !in w.registered && h.name !in w.nicknameDuids ==>
                 r.duid == if !h.ps5 && "Main PS4 Console" in w.nicknameDuids then w.nicknameDuids["Main PS4 Console"] else "")
  {
    var h := w.discovered[i];
    RowOfFoundAt(w, w.discovered, i);
    HiddenAfterListing(w, w.discovered[..i], h.mac);
    forall g | g in w.discovered[..i] && g.mac == h.mac
      ensures exists j :: 0 <= j < i && w.discovered[j].mac == h.mac
    {
      var j :| 0 <= j < i && w.discovered[..i][j] == g;
      assert w.discovered[j].mac == h.mac;
    }
    forall j | 0 <= j < i && w.discovered[j].mac == h.mac
      ensures exists g :: g in w.discovered[..i] && g.mac == h.mac
    {
      assert w.discovered[j] in w.discovered[..i];
    }
  }

  /** A manual host is displayed unless it is registered and a discovered host has its address and MAC address. */
  lemma ManualRowMeaning(w: World, i: nat)
    requires i < |w.manual|
    ensures var r, m := Rows(w)[|w.discovered| + i], w.manual[i];
            && (r.display <==> !(m.registered && exists h :: h in w.discovered && h.mac == m.mac && h.address == m.host))
            && !r.discovered && r.manual && r.address == m.host && r.duid == "" && r.state == Some("unknown")
            && (r.registered <==> m.registered && m.mac in w.registered)
            && (if r.registered then
                  var known := w.registered[m.mac];
                  r.name == known.nickname && r.ps5 == Some(known.ps5) && r.mac == Some(known.mac)
                else r.name == m.host && r.ps5 == None && r.mac == None)
  {
    var m := w.manual[i];
    assert Rows(w)[|w.discovered| + i] == RowOfManual(w, m);
    assert forall h :: h in w.discovered && h.mac == m.mac && h.address == m.host && m.registered ==> SameHost(m, h);
  }

  /** How many registered PS4 consoles are discovered. */
  function RegisteredPs4Places(w: World): set<int> {
    set i | 0 <= i < |w.discovered| && !w.discovered[i].ps5 && w.discovered[i].mac in w.registered
  }

  lemma {:induction false} RegisteredPs4sCount(w: World, n: nat)
    requires n <= |w.discovered|
    ensures RegisteredPs4s(w, w.discovered[..n])
         == |set i | 0 <= i < n && !w.discovered[i].ps5 && w.discovered[i].mac in w.registered|
  {
    var here := set i | 0 <= i < n && !w.discovered[i].ps5 && w.discovered[i].mac in w.registered;
    if n == 0 {
      assert here == {};
    } else {
      RegisteredPs4sCount(w, n - 1);
      assert w.discovered[..n][..n - 1] == w.discovered[..n - 1];
      var before := set i | 0 <= i < n - 1 && !w.discovered[i].ps5 && w.discovered[i].mac in w.registered;
      if !w.discovered[n - 1].ps5 && w.discovered[n - 1].mac in w.registered {
        assert here == before + {n - 1};
      } else {
        assert here == before;
      }
    }
  }

  /** A PSN host is listed exactly if no discovered and no waking host has its name and it is not the entry for PS4
      consoles while all registered ones are discovered; every listed one is displayed. */
  lemma PsnRowMeaning(w: World, r: Row)
    ensures r in Rows(w)[|w.discovered| + |w.manual|..] <==>
              && r == Row(false, false, r.name, r.duid, "", r.ps5, None, None, None, None, true, true)
              && r.ps5.Some? && Psn(r.duid, r.name, r.ps5.value) in w.psn
              && r.name !in w.waking && (forall h :: h in w.discovered ==> h.name != r.name)
              && !(r.name == "Main PS4 Console" && |RegisteredPs4Places(w)| >= w.ps4sRegistered)
  {
    var listed := ListedPsn(w, w.psn);
    assert Rows(w)[|w.discovered| + |w.manual|..] == RowsOfPsn(listed);
    ListedMembers(w, w.psn);
    RegisteredPs4sCount(w, |w.discovered|);
    assert w.discovered[..|w.discovered|] == w.discovered;
    if r in RowsOfPsn(listed) {
      var i :| 0 <= i < |listed| && RowsOfPsn(listed)[i] == r;
      assert listed[i] in listed;
    }
    if r.ps5.Some? && Psn(r.duid, r.name, r.ps5.value) in listed {
      var i :| 0 <= i < |listed| && listed[i] == Psn(r.duid, r.name, r.ps5.value);
      assert RowsOfPsn(listed)[i] == RowOfPsn(listed[i]);
    }
  }

  /** `x` stands before `y`. */
  ghost predicate InOrder(ps: seq<Psn>, x: Psn, y: Psn) {
    exists i, j :: 0 <= i < j < |ps| && ps[i] == x && ps[j] == y
  }

  lemma InOrderLater(ps: seq<Psn>, x: Psn, y: Psn)
    requires ps != [] && InOrder(ps[1..], x, y)
    ensures InOrder(ps, x, y)
  {
    var i, j :| 0 <= i < j < |ps[1..]| && ps[1..][i] == x && ps[1..][j] == y;
    assert ps[i + 1] == x && ps[j + 1] == y;
  }

  lemma HeadInOrder(ps: seq<Psn>, y: Psn)
    requires ps != [] && y in ps[1..]
    ensures InOrder(ps, ps[0], y)
  {
    var j :| 0 <= j < |ps[1..]| && ps[1..][j] == y;
    assert ps[j + 1] == y;
  }

  lemma {:induction false} ListedInOrder(w: World, ps: seq<Psn>, a: nat, b: nat)
    requires a < b < |ListedPsn(w, ps)|
    ensures InOrder(ps, ListedPsn(w, ps)[a], ListedPsn(w, ps)[b])
  {
    var rest := ps[1..];
    var listed := ListedPsn(w, rest);
    if !Listed(w, ps[0]) {
      assert ListedPsn(w, ps) == listed;
      ListedInOrder(w, rest, a, b);
      InOrderLater(ps, listed[a], listed[b]);
    } else if a > 0 {
      ListedInOrder(w, rest, a - 1, b - 1);
      InOrderLater(ps, listed[a - 1], listed[b - 1]);
    } else {
      ListedMembers(w, rest);
      assert listed[b - 1] in listed;
      HeadInOrder(ps, listed[b - 1]);
    }
  }

  lemma {:induction false} CountedInOrder(w: World, ps: seq<Psn>, a: nat, b: nat)
    requires a < b < |CountedPsn(w, ps)|
    ensures InOrder(ps, CountedPsn(w, ps)[a], CountedPsn(w, ps)[b])
  {
    var rest := ps[1..];
    var counted := CountedPsn(w, rest);
    if IsFound(w, ps[0].name) {
      assert CountedPsn(w, ps) == counted;
      CountedInOrder(w, rest, a, b);
      InOrderLater(ps, counted[a], counted[b]);
    } else if a > 0 {
      CountedInOrder(w, rest, a - 1, b - 1);
      InOrderLater(ps, counted[a - 1], counted[b - 1]);
    } else {
      CountedMembers(w, rest);
      assert counted[b - 1] in counted;
      HeadInOrder(ps, counted[b - 1]);
    }
  }

  /** What a server that is looked up carries besides what its row shows. */
  lemma ServerMeaning(w: World, index: int)
    ensures var s := ServerAt(w, index);
            var d, m := |w.discovered|, |w.manual|;
            && (s.Nothing? <==> index < 0 || index >= d + m + |CountedPsn(w, w.psn)|)
            && (0 <= index < d ==>
                 var h := w.discovered[index];
                 && s.found == Some(h) && s.psn == None
                 && s.registeredHost == (if h.mac in w.registered then Some(w.registered[h.mac]) else None)
                 && (s.manual.Some? ==> s.manual.value in w.manual && s.manual.value.registered
                                        && s.manual.value.mac == h.mac && s.manual.value.host == h.address))
            && (d <= index < d + m ==> s.found == None && s.psn == None && s.manual == Some(w.manual[index - d]))
            && (s.Server? && index >= d + m ==>
                 && s.found == None && s.manual == None && s.psn.Some? && s.psn.value in w.psn && s.registered
                 && s.registeredHost == (if s.psn.value.name in w.byNickname then Some(w.byNickname[s.psn.value.name]) else None)
                 && forall h :: h in w.discovered ==> h.name != s.psn.value.name)
  {
    if 0 <= index < |w.discovered| {
      FirstSameIsOne(w.manual, w.discovered[index]);
    }
    CountedMembers(w, w.psn);
  }

  lemma {:induction false} FirstSameIsOne(ms: seq<Manual>, h: Found)
    ensures var r := FirstSame(ms, h); r.Some? ==> r.value in ms && SameHost(r.value, h)
  {
    if ms != [] && !SameHost(ms[0], h) {
      FirstSameIsOne(ms[1..], h);
    }
  }

  lemma {:induction false} CountedMembers(w: World, ps: seq<Psn>)
    ensures forall p :: p in CountedPsn(w, ps) <==> p in ps && !IsFound(w, p.name)
  {
    if ps != [] {
      CountedMembers(w, ps[1..]);
    }
  }

  predicate Distinct(ps: seq<Psn>) {
    forall i, j :: 0 <= i < j < |ps| ==> ps[i].duid != ps[j].duid
  }

  /** No listed PSN host stands behind one that only the list leaves out. */
  predicate HiddenLast(w: World, ps: seq<Psn>) {
    forall i, j :: 0 <= i < j < |ps| && Listed(w, ps[j]) ==> !OnlyListHides(w, ps[i])
  }

  lemma {:induction false} ListedMembers(w: World, ps: seq<Psn>)
    ensures forall p :: p in ListedPsn(w, ps) <==> p in ps && Listed(w, p)
  {
    if ps != [] {
      ListedMembers(w, ps[1..]);
    }
  }

  lemma HiddenLastStep(w: World, ps: seq<Psn>)
    requires ps != []
    ensures HiddenLast(w, ps) <==>
              HiddenLast(w, ps[1..]) && (OnlyListHides(w, ps[0]) ==> ListedPsn(w, ps[1..]) == [])
  {
    var rest := ps[1..];
    ListedMembers(w, rest);
    if OnlyListHides(w, ps[0]) && ListedPsn(w, rest) != [] {
      var p := ListedPsn(w, rest)[0];
      assert p in ListedPsn(w, rest);
      var j :| 0 <= j < |rest| && rest[j] == p;
      assert ps[j + 1] == p;
    }
    forall i, j | HiddenLast(w, ps) && 0 <= i < j < |rest| && Listed(w, rest[j])
      ensures !OnlyListHides(w, rest[i])
    {
      assert ps[i + 1] == rest[i] && ps[j + 1] == rest[j];
    }
    forall j | 1 <= j < |ps| && Listed(w, ps[j])
      ensures ListedPsn(w, rest) != []
    {
      assert rest[j - 1] == ps[j];
      assert ps[j] in ListedPsn(w, rest);
    }
  }

  lemma SameHead(p: Psn, a: seq<Psn>, b: seq<Psn>)
    ensures [p] + a <= [p] + b <==> a <= b
  {
    if [p] + a <= [p] + b {
      assert forall i :: 0 <= i < |a| ==> a[i] == ([p] + a)[i + 1] == ([p] + b)[i + 1] == b[i];
      assert a == b[..|a|];
    }
  }

  lemma ListNeedsHead(w: World, ps: seq<Psn>)
    requires Distinct(ps) && ps != [] && OnlyListHides(w, ps[0])
    ensures ListedPsn(w, ps) <= CountedPsn(w, ps) <==> ListedPsn(w, ps[1..]) == []
  {
    var l, c := ListedPsn(w, ps), CountedPsn(w, ps);
    assert l == ListedPsn(w, ps[1..]) && c[0] == ps[0];
    if l != [] {
      ListedMembers(w, ps[1..]);
      assert l[0] in l;
      var j :| 0 <= j < |ps[1..]| && ps[1..][j] == l[0];
      assert ps[j + 1] == l[0];
      assert c[0] != l[0];
    }
  }

  /** The list shows a first part of what the look-up counts exactly if the hosts it leaves out come last. */
  lemma {:induction false} ListIsPrefix(w: World, ps: seq<Psn>)
    requires Distinct(ps)
    ensures ListedPsn(w, ps) <= CountedPsn(w, ps) <==> HiddenLast(w, ps)
  {
    if ps != [] {
      var p, rest := ps[0], ps[1..];
      ListIsPrefix(w, rest);
      HiddenLastStep(w, ps);
      var l, c := ListedPsn(w, rest), CountedPsn(w, rest);
      if OnlyListHides(w, p) {
        ListNeedsHead(w, ps);
        assert l == [] ==> l <= c;
      } else if Listed(w, p) {
        assert ListedPsn(w, ps) == [p] + l && CountedPsn(w, ps) == [p] + c;
        SameHead(p, l, c);
      } else {
        assert ListedPsn(w, ps) == l && CountedPsn(w, ps) == c;
      }
    }
  }

  lemma LocalHostsMatch(w: World, i: nat)
    requires i < |w.discovered| + |w.manual|
    ensures Denotes(ServerAt(w, i), Rows(w)[i])
  {
    if i < |w.discovered| {
      RowOfFoundAt(w, w.discovered, i);
    }
  }

  lemma PsnHostsMatch(w: World, k: nat)
    requires k < |ListedPsn(w, w.psn)|
    ensures var i, counted := |w.discovered| + |w.manual| + k, CountedPsn(w, w.psn);
            Denotes(ServerAt(w, i), Rows(w)[i]) <==> k < |counted| && counted[k] == ListedPsn(w, w.psn)[k]
  {
  }

  /** Looking up any position of the list gives the host shown there, if and only if no listed PSN host
      stands behind one that is left out because it is waking or is the surplus PS4 entry. */
  lemma LookupMatchesList(w: World)
    requires Distinct(w.psn)
    ensures (forall i :: 0 <= i < |Rows(w)| ==> Denotes(ServerAt(w, i), Rows(w)[i])) <==> HiddenLast(w, w.psn)
  {
    var listed, counted := ListedPsn(w, w.psn), CountedPsn(w, w.psn);
    var local := |w.discovered| + |w.manual|;
    ListIsPrefix(w, w.psn);
    if HiddenLast(w, w.psn) {
      forall i | 0 <= i < |Rows(w)|
        ensures Denotes(ServerAt(w, i), Rows(w)[i])
      {
        if i < local {
          LocalHostsMatch(w, i);
        } else {
          PsnHostsMatch(w, i - local);
        }
      }
    }
    if forall i :: 0 <= i < |Rows(w)| ==> Denotes(ServerAt(w, i), Rows(w)[i]) {
      forall k | 0 <= k < |listed|
        ensures k < |counted| && counted[k] == listed[k]
      {
        PsnHostsMatch(w, k);
        assert Denotes(ServerAt(w, local + k), Rows(w)[local + k]);
      }
      if listed != [] {
        var last := listed[|listed| - 1];
        assert |listed| - 1 < |counted|;
      }
      assert counted[..|listed|] == listed;
    }
  }

  /** All registered PS4 consoles are discovered, so the list leaves out the PSN entry for them; the look-up
      still counts it and gives it for the position at which the list shows the next PSN host. */
  lemma SurplusPs4ShiftsLookup()
    ensures var ps4 := Found("Den", "m4", "10.0.0.4", false, "ready", "", "");
            var w := World([ps4], [], [Psn("41", MAIN_PS4, false), Psn("61", "Loft", true)], [],
                           map["m4" := Registered("Den", "m4", false)], map[], map[], 1, map[]);
            && Distinct(w.psn) && w.waking == []
            && |Rows(w)| == 2 && Rows(w)[1].name == "Loft" && ServerAt(w, 1).psn == Some(w.psn[0])
            && !Denotes(ServerAt(w, 1), Rows(w)[1])
  {
    var ps4 := Found("Den", "m4", "10.0.0.4", false, "ready", "", "");
    var main, loft := Psn("41", MAIN_PS4, false), Psn("61", "Loft", true);
    var w := World([ps4], [], [main, loft], [], map["m4" := Registered("Den", "m4", false)], map[], map[], 1, map[]);
    assert RegisteredPs4s(w, w.discovered[..0]) == 0;
    assert RegisteredPs4s(w, w.discovered) == 1;
    assert MAIN_PS4 != "Den" && "Loft" != "Den" by {
      assert |MAIN_PS4| == 16 && |"Loft"| == 4 && |"Den"| == 3;
    }
    assert OnlyListHides(w, main) && Listed(w, loft);
    assert ListedPsn(w, [loft]) == [loft] && CountedPsn(w, [loft]) == [loft];
    assert w.psn[1..] == [loft];
    assert ListedPsn(w, w.psn) == [loft] && CountedPsn(w, w.psn) == [main, loft];
  }

  // ---------------------------------------------------------------------------------------------
  // The loops

  method IsManual(w: World, h: Found) returns (manual: bool)
    ensures manual <==> exists m :: m in w.manual && SameHost(m, h)
  {
    manual := false;
    for i := 0 to |w.manual|
      invariant manual <==> exists m :: m in w.manual[..i] && SameHost(m, h)
    {
      assert w.manual[..i + 1] == w.manual[..i] + [w.manual[i]];
      if SameHost(w.manual[i], h) {
        manual := true;
      }
    }
  }

  /** Listing one discovered host, as far as it is about hidden hosts. */
  method UpdateHidden(w: World, before: map<string, string>, h: Found) returns (hidden: map<string, string>, wasHidden: bool)
    ensures wasHidden == (h.mac in before) && hidden == HideStep(w, before, h)
  {
    hidden, wasHidden := before, h.mac in before;
    var registered := h.mac in w.registered;
    if registered && wasHidden {
      hidden := hidden - {h.mac};
    }
    if wasHidden {
      var mac, nickname := NULL_MAC, "";
      if h.mac in hidden {
        mac, nickname := h.mac, hidden[h.mac];
      }
      if nickname != h.name {
        hidden := hidden - {h.mac};
        hidden := hidden[mac := h.name];
      } else {
        assert h.mac in hidden ==> hidden == hidden[h.mac := h.name];
      }
    }
  }

  method FoundRow(w: World, h: Found, wasHidden: bool) returns (row: Row)
    ensures row == RowOfFound(w, h, wasHidden)
  {
    var manual := IsManual(w, h);
    var registered := h.mac in w.registered;
    var duid := "";
    if !registered {
      if h.name in w.nicknameDuids {
        duid := w.nicknameDuids[h.name];
      } else if !h.ps5 {
        duid := if MAIN_PS4 in w.nicknameDuids then w.nicknameDuids[MAIN_PS4] else "";
      }
    }
    row := Row(true, manual, h.name, duid, h.address, Some(h.ps5), Some(h.mac),
               Some(h.state), Some(h.app), Some(h.titleId), registered, !wasHidden);
  }

  method FoundRows(w: World)
      returns (rows: seq<Row>, nicknames: seq<string>, registeredPs4s: nat, hidden: map<string, string>)
    ensures rows == RowsOfFound(w, w.discovered) && hidden == HiddenAfter(w, w.discovered)
    ensures forall name :: name in nicknames <==> IsFound(w, name)
    ensures registeredPs4s == RegisteredPs4s(w, w.discovered)
  {
    rows, nicknames, registeredPs4s, hidden := [], [], 0, w.hidden;
    for i := 0 to |w.discovered|
      invariant rows == RowsOfFound(w, w.discovered[..i]) && hidden == HiddenAfter(w, w.discovered[..i])
      invariant |nicknames| == i && forall j :: 0 <= j < i ==> nicknames[j] == w.discovered[j].name
      invariant registeredPs4s == RegisteredPs4s(w, w.discovered[..i])
    {
      var h := w.discovered[i];
      assert w.discovered[..i + 1][..i] == w.discovered[..i];
      var wasHidden;
      hidden, wasHidden := UpdateHidden(w, hidden, h);
      var row := FoundRow(w, h, wasHidden);
      rows := rows + [row];
      nicknames := nicknames + [h.name];
      if !h.ps5 && h.mac in w.registered {
        registeredPs4s := registeredPs4s + 1;
      }
    }
    assert w.discovered[..|w.discovered|] == w.discovered;
    NicknamesOfFound(w, nicknames);
  }

  lemma NicknamesOfFound(w: World, nicknames: seq<string>)
    requires |nicknames| == |w.discovered| && forall j :: 0 <= j < |nicknames| ==> nicknames[j] == w.discovered[j].name
    ensures forall name :: name in nicknames <==> IsFound(w, name)
  {
    forall name
      ensures name in nicknames <==> IsFound(w, name)
    {
      if IsFound(w, name) {
        var h :| h in w.discovered && h.name == name;
        var j :| 0 <= j < |w.discovered| && w.discovered[j] == h;
        assert nicknames[j] == name;
      }
    }
  }

  /** Has a discovered host been matched with this manual one? */
  method IsMatched(w: World, m: Manual) returns (matched: bool)
    ensures matched <==> exists h :: h in w.discovered && SameHost(m, h)
  {
    matched := false;
    for i := 0 to |w.discovered|
      invariant matched <==> exists h :: h in w.discovered[..i] && SameHost(m, h)
    {
      assert w.discovered[..i + 1] == w.discovered[..i] + [w.discovered[i]];
      if SameHost(m, w.discovered[i]) {
        matched := true;
      }
    }
  }

  method ManualRows(w: World) returns (rows: seq<Row>)
    ensures rows == RowsOfManual(w, w.manual)
  {
    rows := [];
    for i := 0 to |w.manual|
      invariant rows == RowsOfManual(w, w.manual[..i])
    {
      var m := w.manual[i];
      assert w.manual[..i + 1][..i] == w.manual[..i];
      var matched := IsMatched(w, m);
      var row := Row(false, true, m.host, "", m.host, None, None, Some("unknown"), None, None, false, !matched);
      if m.registered && m.mac in w.registered {
        var r := w.registered[m.mac];
        row := row.(registered := true, name := r.nickname, ps5 := Some(r.ps5), mac := Some(r.mac));
      }
      rows := rows + [row];
    }
    assert w.manual[..|w.manual|] == w.manual;
  }

  method Contains(names: seq<string>, name: string) returns (found: bool)
    ensures found <==> name in names
  {
    found := false;
    for i := 0 to |names|
      invariant found <==> name in names[..i]
    {
      if names[i] == name {
        found := true;
      }
    }
  }

  method PsnRows(w: World, nicknames: seq<string>) returns (rows: seq<Row>)
    requires forall p :: p in w.psn ==> (Listed(w, p) <==> p.name !in nicknames && p.name !in w.waking)
    ensures rows == RowsOfPsn(ListedPsn(w, w.psn))
  {
    rows := [];
    for i := 0 to |w.psn|
      invariant rows == RowsOfPsn(ListedPsn(w, w.psn[..i]))
    {
      var p := w.psn[i];
      ListedPsnAppend(w, w.psn[..i], [p]);
      assert w.psn[..i + 1] == w.psn[..i] + [p];
      assert ListedPsn(w, [p]) == if Listed(w, p) then [p] else [];
      var discovered := Contains(nicknames, p.name);
      var waking := Contains(w.waking, p.name);
      if !(discovered || waking) {
        rows := rows + [RowOfPsn(p)];
      }
    }
    assert w.psn[..|w.psn|] == w.psn;
  }

  /** The list of hosts, and the hidden hosts that the settings are left with. */
  method Hosts(w: World) returns (rows: seq<Row>, hidden: map<string, string>)
    ensures rows == Rows(w) && hidden == HiddenAfter(w, w.discovered)
  {
    var nicknames, ps4s;
    rows, nicknames, ps4s, hidden := FoundRows(w);
    var manual := ManualRows(w);
    if ps4s >= w.ps4sRegistered {
      nicknames := nicknames + [MAIN_PS4];
    }
    var psn := PsnRows(w, nicknames);
    rows := rows + manual + psn;
  }

  method PsnAt(w: World, index: nat) returns (s: Server)
    ensures s == if index < |CountedPsn(w, w.psn)| then ServerOfPsn(w, CountedPsn(w, w.psn)[index]) else Nothing
  {
    var j := 0;
    for i := 0 to |w.psn|
      invariant j == |CountedPsn(w, w.psn[..i])| <= index
    {
      var p := w.psn[i];
      CountedAt(w, i);
      var hidden := Discovered(w, p.name);
      if !hidden {
        if j == index {
          return ServerOfPsn(w, p);
        }
        j := j + 1;
      }
    }
    assert w.psn[..|w.psn|] == w.psn;
    return Nothing;
  }

  lemma CountedAt(w: World, i: nat)
    requires i < |w.psn|
    ensures var before, p := CountedPsn(w, w.psn[..i]), w.psn[i];
            && CountedPsn(w, w.psn[..i + 1]) == before + (if IsFound(w, p.name) then [] else [p])
            && (!IsFound(w, p.name) ==>
                 |before| < |CountedPsn(w, w.psn)| && CountedPsn(w, w.psn)[|before|] == p)
  {
    var p := w.psn[i];
    CountedPsnAppend(w, w.psn[..i], [p]);
    assert w.psn[..i + 1] == w.psn[..i] + [p];
    assert CountedPsn(w, [p]) == if IsFound(w, p.name) then [] else [p];
    CountedPsnAppend(w, w.psn[..i + 1], w.psn[i + 1..]);
    assert w.psn == w.psn[..i + 1] + w.psn[i + 1..];
  }

  method Discovered(w: World, name: string) returns (found: bool)
    ensures found <==> IsFound(w, name)
  {
    found := false;
    for i := 0 to |w.discovered|
      invariant found <==> exists h :: h in w.discovered[..i] && h.name == name
    {
      assert w.discovered[..i + 1] == w.discovered[..i] + [w.discovered[i]];
      if w.discovered[i].name == name {
        found := true;
      }
    }
  }

  method FirstManual(w: World, h: Found) returns (m: Option<Manual>)
    ensures m == FirstSame(w.manual, h)
  {
    for i := 0 to |w.manual|
      invariant FirstSame(w.manual, h) == FirstSame(w.manual[i..], h)
    {
      if SameHost(w.manual[i], h) {
        return Some(w.manual[i]);
      }
    }
    return None;
  }

  /** The host at a position of the list. */
  method DisplayServerAt(w: World, index: int) returns (s: Server)
    ensures s == ServerAt(w, index)
  {
    if index < 0 {
      return Nothing;
    }
    var i := index;
    if i < |w.discovered| {
      var h := w.discovered[i];
      var manual := FirstManual(w, h);
      var registered := h.mac in w.registered;
      var duid := "";
      if !registered {
        if h.name in w.nicknameDuids {
          duid := w.nicknameDuids[h.name];
        } else if !h.ps5 {
          duid := if MAIN_PS4 in w.nicknameDuids then w.nicknameDuids[MAIN_PS4] else "";
        }
      }
      return Server(true, Some(h), manual, None, duid, registered,
                    if registered then Some(w.registered[h.mac]) else None);
    }
    i := i - |w.discovered|;
    if i < |w.manual| {
      var m := w.manual[i];
      s := Server(false, None, Some(m), None, "", false, None);
      if m.registered && m.mac in w.registered {
        s := s.(registered := true, registeredHost := Some(w.registered[m.mac]));
      }
      return s;
    }
    i := i - |w.manual|;
    if i < |w.psn| {
      s := PsnAt(w, i);
      return s;
    }
    return Nothing;
  }
}
