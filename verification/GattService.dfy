/**
 Registering a GATT service: counting the attributes of its characteristics from an option list,
 adding them at consecutive handles, and taking them back when one fails.
 */
module GattService {
  import opened Basics
  import opened Bytes
  import opened BtUuid
  import Att
  import GattChars

  const GATT_CHARAC_UUID: Uuid := Uuid16(0x2803)
  const GATT_CLIENT_CHARAC_CFG_UUID: Uuid := Uuid16(0x2902)

  datatype Kind = ReadEvent | WriteEvent | OtherEvent

  /** A callback option: the event, the function and its user data as opaque numbers. */
  datatype Callback = Callback(event: Kind, fn: nat, userData: nat)

  datatype Protect = NoProtection | ProtectRead | ProtectWrite | ProtectBoth | OtherProtection

  /** The option list, up to GATT_OPT_INVALID. */
  datatype Opt =
    | ChrUuid16(value: int)
    | ChrUuid(uuid: Option<Uuid>)  // None: a UUID of no known type
    | Props(value: int)
    | ValueCb(cb: Callback)
    | Authentication(p: Protect)
    | Authorization(p: Protect)
    | GetValueHandle               // a place for the value's handle
    | GetCccHandle                 // a place for the descriptor's handle
    | OtherOpt                     // unknown options

  predicate StartsChr(o: Opt) { o.ChrUuid16? || o.ChrUuid? }

  /** struct gatt_info. */
  datatype Info = Info(uuid: Option<Uuid>, props: Byte, authentication: Protect, authorization: Protect,
    callbacks: seq<Callback>, numAttrs: nat, valueHandle: bool, cccHandle: bool)

  const BLANK: Info := Info(None, 0, NoProtection, NoProtection, [], 0, false, false)

  /** ATT_CHAR_PROPER_NOTIFY or ATT_CHAR_PROPER_INDICATE. */
  predicate NeedsCcc(props: Byte) {
    (props as bv8) & 0x30 != 0
  }

  function Low8(v: int): Byte { v % 256 }

  /** One turn of the loop of parse_opts. */
  function Apply(info: Info, o: Opt): Info {
    match o
    case ChrUuid16(v) => info.(uuid := Some(Uuid16(v % 0x1_0000)), numAttrs := info.numAttrs + 2)
    case ChrUuid(u) => info.(uuid := u, numAttrs := info.numAttrs + 2)
    case Props(v) => info.(props := Low8(v), numAttrs := info.numAttrs + if NeedsCcc(Low8(v)) then 1 else 0)
    case ValueCb(cb) => info.(callbacks := info.callbacks + [cb])
    case Authentication(p) => info.(authentication := p)
    case Authorization(p) => info.(authorization := p)
    case GetValueHandle => info.(valueHandle := true)
    case GetCccHandle => info.(cccHandle := true)
    case OtherOpt => info
  }

  /** parse_opts from the current information on: a UUID that is not the very first option starts a new one. */
  function Parse(info: Info, opts: seq<Opt>): (r: seq<Info>)
    ensures r != []
    decreases |opts|
  {
    if opts == [] then [info]
    else
      var now := Apply(info, opts[0]);
      if |opts| > 1 && StartsChr(opts[1]) then [now] + Parse(BLANK, opts[1..]) else Parse(now, opts[1..])
  }

  lemma ParseStep(done: seq<Info>, info: Info, opts: seq<Opt>, i: nat)
    requires i < |opts|
    ensures var now := Apply(info, opts[i]);
      done + Parse(info, opts[i..]) ==
        if i + 1 < |opts| && StartsChr(opts[i + 1]) then (done + [now]) + Parse(BLANK, opts[i + 1..])
        else done + Parse(now, opts[i + 1..])
  {
    hide Apply;
    var s := opts[i..];
    assert s[0] == opts[i] && s[1..] == opts[i + 1..] && (|s| > 1 ==> s[1] == opts[i + 1]);
  }

  method ParseOpts(opts: seq<Opt>) returns (l: seq<Info>)
    ensures l == Parse(BLANK, opts)
  {
    var info := BLANK;
    var done: seq<Info> := [];
    var i := 0;
    assert opts[0..] == opts;
    while i < |opts|
      invariant i <= |opts|
      invariant done + Parse(info, opts[i..]) == Parse(BLANK, opts)
    {
      ParseStep(done, info, opts, i);
      info := Apply(info, opts[i]);
      i := i + 1;
      if i < |opts| && StartsChr(opts[i]) {
        done := done + [info];
        info := BLANK;
      }
    }
    l := done + [info];
  }

  // ----- what a group of options counts -----

  /** The options of each characteristic: groups cut before every UUID but one at the very beginning. */
  function Groups(opts: seq<Opt>): (r: seq<seq<Opt>>)
    ensures r != []
    decreases |opts|
  {
    if opts == [] then [[]]
    else if |opts| > 1 && StartsChr(opts[1]) then [[opts[0]]] + Groups(opts[1..])
    else
      var r := Groups(opts[1..]);
      [[opts[0]] + r[0]] + r[1..]
  }

  function Fold(info: Info, g: seq<Opt>): Info
    decreases |g|
  {
    if g == [] then info else Fold(Apply(info, g[0]), g[1..])
  }

  function FoldAll(gs: seq<seq<Opt>>): (r: seq<Info>)
    ensures |r| == |gs| && forall i :: 0 <= i < |gs| ==> r[i] == Fold(BLANK, gs[i])
  {
    seq(|gs|, i requires 0 <= i < |gs| => Fold(BLANK, gs[i]))
  }

  lemma FoldNone(info: Info)
    ensures Fold(info, []) == info && FoldAll([]) == []
  {
  }

  lemma FoldAllCons(gs: seq<seq<Opt>>)
    requires gs != []
    ensures FoldAll(gs) == [Fold(BLANK, gs[0])] + FoldAll(gs[1..])
  {
  }

  lemma FoldMore(info: Info, o: Opt, g: seq<Opt>)
    ensures Fold(info, [o] + g) == Fold(Apply(info, o), g)
  {
    assert ([o] + g)[1..] == g;
  }

  /** The one-pass parser treats every characteristic's options on their own. */
  lemma {:induction false} ParseIsGroups(info: Info, opts: seq<Opt>)
    ensures var r := Groups(opts);
      Parse(info, opts) == [Fold(info, r[0])] + FoldAll(r[1..])
    decreases |opts|
  {
    hide Apply, Fold, FoldAll;
    if opts == [] {
      FoldNone(info);
    } else if |opts| > 1 && StartsChr(opts[1]) {
      var r := Groups(opts[1..]);
      ParseIsGroups(BLANK, opts[1..]);
      FoldMore(info, opts[0], []);
      FoldNone(Apply(info, opts[0]));
      FoldAllCons(r);
      assert [opts[0]] + [] == [opts[0]];
    } else {
      var r := Groups(opts[1..]);
      ParseIsGroups(Apply(info, opts[0]), opts[1..]);
      FoldMore(info, opts[0], r[0]);
    }
  }

  function Uuids(g: seq<Opt>): nat {
    if g == [] then 0 else (if StartsChr(g[0]) then 1 else 0) + Uuids(g[1..])
  }

  /** How many properties options ask for notifications or indications. */
  function Notifies(g: seq<Opt>): nat {
    if g == [] then 0 else (if g[0].Props? && NeedsCcc(Low8(g[0].value)) then 1 else 0) + Notifies(g[1..])
  }

  function PropsCount(g: seq<Opt>): nat {
    if g == [] then 0 else (if g[0].Props? then 1 else 0) + PropsCount(g[1..])
  }

  /** The count of a group: two for its UUID and one for every notifying properties option. */
  lemma {:induction false} FoldCounts(info: Info, g: seq<Opt>)
    ensures var r := Fold(info, g);
      && r.numAttrs == info.numAttrs + 2 * Uuids(g) + Notifies(g)
      && (PropsCount(g) == 0 ==> r.props == info.props && Notifies(g) == 0)
      && (PropsCount(g) == 1 ==> Notifies(g) == if NeedsCcc(r.props) then 1 else 0)
      && (PropsCount(g) > 0 && NeedsCcc(r.props) ==> Notifies(g) >= 1)
      && (Uuids(g) == 0 ==> r.uuid == info.uuid)
    decreases |g|
  {
    hide NeedsCcc;
    if g != [] {
      FoldCounts(Apply(info, g[0]), g[1..]);
    }
  }

  /** The attributes a characteristic takes when it is added. */
  function Consumed(info: Info): nat {
    2 + if NeedsCcc(info.props) then 1 else 0
  }

  lemma {:induction false} GroupUuids(opts: seq<Opt>)
    ensures var r := Groups(opts);
      && (opts != [] && StartsChr(opts[0]) ==> Uuids(r[0]) == 1)
      && (opts == [] || !StartsChr(opts[0]) ==> Uuids(r[0]) == 0)
      && forall i :: 1 <= i < |r| ==> Uuids(r[i]) == 1
    decreases |opts|
  {
    if opts == [] {
    } else if |opts| > 1 && StartsChr(opts[1]) {
      GroupUuids(opts[1..]);
      var r := Groups(opts[1..]);
      assert [opts[0]][1..] == [] && Uuids([]) == 0;
      assert Uuids([opts[0]]) == if StartsChr(opts[0]) then 1 else 0;
      assert Groups(opts) == [[opts[0]]] + r;
      forall i | 1 <= i <= |r|
        ensures Uuids(Groups(opts)[i]) == 1
      {
        assert Groups(opts)[i] == r[i - 1];
      }
    } else {
      GroupUuids(opts[1..]);
      var r := Groups(opts[1..]);
      var g := [opts[0]] + r[0];
      assert g[1..] == r[0];
      assert Groups(opts) == [g] + r[1..];
    }
  }

  /** Of the options that name a UUID the last one counts; a number has 16 bits. */
  function LastUuid(g: seq<Opt>): Option<Uuid> {
    if g == [] then None
    else
      match g[|g| - 1]
      case ChrUuid16(v) => Some(Uuid16(v % 0x1_0000))
      case ChrUuid(u) => u
      case _ => LastUuid(g[..|g| - 1])
  }

  function LastProperties(g: seq<Opt>): Byte {
    if g == [] then 0 else if g[|g| - 1].Props? then g[|g| - 1].value % 256 else LastProperties(g[..|g| - 1])
  }

  function LastAuthentication(g: seq<Opt>): Protect {
    if g == [] then NoProtection
    else if g[|g| - 1].Authentication? then g[|g| - 1].p
    else LastAuthentication(g[..|g| - 1])
  }

  function LastAuthorization(g: seq<Opt>): Protect {
    if g == [] then NoProtection
    else if g[|g| - 1].Authorization? then g[|g| - 1].p
    else LastAuthorization(g[..|g| - 1])
  }

  /** The callbacks add up. */
  function CallbacksIn(g: seq<Opt>): seq<Callback> {
    if g == [] then []
    else CallbacksIn(g[..|g| - 1]) + if g[|g| - 1].ValueCb? then [g[|g| - 1].cb] else []
  }

  lemma {:induction false} FoldSnoc(info: Info, g: seq<Opt>, o: Opt)
    ensures Fold(info, g + [o]) == Apply(Fold(info, g), o)
    decreases |g|
  {
    hide Apply;
    if g == [] {
      assert [o][1..] == [] && [] + [o] == [o];
    } else {
      FoldSnoc(Apply(info, g[0]), g[1..], o);
      assert (g + [o])[1..] == g[1..] + [o];
    }
  }

  lemma LastOnes(front: seq<Opt>, o: Opt)
    ensures var g := front + [o];
      && LastUuid(g) == (if StartsChr(o) then LastUuid([o]) else LastUuid(front))
      && LastProperties(g) == (if o.Props? then o.value % 256 else LastProperties(front))
      && LastAuthentication(g) == (if o.Authentication? then o.p else LastAuthentication(front))
      && LastAuthorization(g) == (if o.Authorization? then o.p else LastAuthorization(front))
      && CallbacksIn(g) == (if o.ValueCb? then CallbacksIn(front) + [o.cb] else CallbacksIn(front))
  {
    var g := front + [o];
    assert g[..|g| - 1] == front && g[|g| - 1] == o;
    assert CallbacksIn(front) + [] == CallbacksIn(front);
  }

  lemma OneUuid(o: Opt)
    ensures LastUuid([o]) == match o
      case ChrUuid16(v) => Some(Uuid16(v % 0x1_0000))
      case ChrUuid(u) => u
      case _ => None
  {
    assert [o][..0] == [];
  }

  /** What the options of a characteristic say of it. */
  lemma {:induction false} FoldGathers(g: seq<Opt>)
    ensures var r := Fold(BLANK, g);
      && r.uuid == LastUuid(g) && r.props == LastProperties(g)
      && r.authentication == LastAuthentication(g) && r.authorization == LastAuthorization(g)
      && r.callbacks == CallbacksIn(g)
      && (r.valueHandle <==> GetValueHandle in g) && (r.cccHandle <==> GetCccHandle in g)
  {
    if g != [] {
      hide NeedsCcc, Fold, LastUuid, LastProperties, LastAuthentication, LastAuthorization, CallbacksIn;
      var front, o := g[..|g| - 1], g[|g| - 1];
      assert g == front + [o];
      FoldGathers(front);
      FoldSnoc(BLANK, front, o);
      LastOnes(front, o);
      OneUuid(o);
    }
  }

  /**
   Every characteristic of a parsed option list is what its own options say: of those that set a field the last
   one counts, callbacks add up, and handles are reported if asked for.
   */
  lemma ParsedGathers(opts: seq<Opt>, i: nat)
    requires i < |Groups(opts)|
    ensures i < |Parse(BLANK, opts)|
    ensures var g, r := Groups(opts)[i], Parse(BLANK, opts)[i];
      && r.uuid == LastUuid(g) && r.props == LastProperties(g)
      && r.authentication == LastAuthentication(g) && r.authorization == LastAuthorization(g)
      && r.callbacks == CallbacksIn(g)
      && (r.valueHandle <==> GetValueHandle in g) && (r.cccHandle <==> GetCccHandle in g)
  {
    hide Fold, Groups, Parse;
    ParseIsGroups(BLANK, opts);
    FoldGathers(Groups(opts)[i]);
  }

  /** As many notifying properties options as the last one needs descriptors. */
  predicate NotifiesOnce(g: seq<Opt>) {
    Notifies(g) == if NeedsCcc(LastProperties(g)) then 1 else 0
  }

  /**
   For a characteristic whose UUID is given, the attributes counted are those it takes exactly if its
   notifying properties options are as many as its last one needs descriptors, so whenever its
   properties are set once; in no case are fewer counted than taken.
   */
  lemma CountIsConsumed(opts: seq<Opt>, i: nat)
    requires i < |Groups(opts)| && (i > 0 || (opts != [] && StartsChr(opts[0])))
    ensures i < |Parse(BLANK, opts)|
    ensures var info, g := Parse(BLANK, opts)[i], Groups(opts)[i];
      && (PropsCount(g) == 1 ==> info.numAttrs == Consumed(info))
      && info.props == LastProperties(g)
      && (info.numAttrs == Consumed(info) <==> NotifiesOnce(g))
      && (info.props != 0 ==> info.numAttrs >= Consumed(info))
  {
    hide NeedsCcc;
    ParseIsGroups(BLANK, opts);
    GroupUuids(opts);
    FoldCounts(BLANK, Groups(opts)[i]);
    FoldGathers(Groups(opts)[i]);
  }

  // ----- the attribute database -----

  datatype Req = ATT_NONE | ATT_AUTHENTICATION | ATT_AUTHORIZATION | ATT_NOT_PERMITTED

  datatype Attr = Attr(uuid: Uuid, read: Req, write: Req, value: seq<Byte>, readCb: Option<nat>, writeCb: Option<nat>,
    userData: Option<nat>)

  type Db = map<U16, Attr>

  function Plain(uuid: Uuid, read: Req, write: Req, value: seq<Byte>): Attr {
    Attr(uuid, read, write, value, None, None, None)
  }

  /** The adapter's attribute database. It refuses handles in use, and any others it likes. */
  class Adapter {
    var db: Db
    const refuse: U16 -> bool
    const findAvail: (Db, nat) -> U16

    constructor (refuse: U16 -> bool, findAvail: (Db, nat) -> U16)
      ensures this.refuse == refuse && this.findAvail == findAvail && db == map[]
    {
      this.refuse, this.findAvail := refuse, findAvail;
      db := map[];
    }

    /** attrib_db_add */
    method DbAdd(handle: U16, a: Attr) returns (ok: bool)
      modifies this
      ensures ok <==> handle !in old(db) && !refuse(handle)
      ensures db == if ok then old(db)[handle := a] else old(db)
    {
      ok := handle !in db && !refuse(handle);
      if ok {
        db := db[handle := a];
      }
    }

    /** attrib_db_del */
    method DbDel(handle: U16) returns (ok: bool)
      modifies this
      ensures ok <==> handle in old(db)
      ensures db == old(db) - {handle}
    {
      ok := handle in db;
      db := db - {handle};
    }
  }

  // ----- one characteristic -----

  function ReadReq(info: Info): Req {
    if info.authorization in {ProtectRead, ProtectBoth} then ATT_AUTHORIZATION
    else if info.authentication in {ProtectRead, ProtectBoth} then ATT_AUTHENTICATION
    else if (info.props as bv8) & 0x02 == 0 then ATT_NOT_PERMITTED
    else ATT_NONE
  }

  function WriteReq(info: Info): Req {
    if info.authorization in {ProtectWrite, ProtectBoth} then ATT_AUTHORIZATION
    else if info.authentication in {ProtectWrite, ProtectBoth} then ATT_AUTHENTICATION
    else if (info.props as bv8) & 0x0C == 0 then ATT_NOT_PERMITTED
    else ATT_NONE
  }

  predicate Has(callbacks: seq<Callback>, event: Kind) {
    exists cb :: cb in callbacks && cb.event == event
  }

  /** The checks add_characteristic makes before it touches the database. */
  predicate Acceptable(info: Info) {
    && info.uuid.Some? && info.uuid.value.Valid() && !info.uuid.value.Uuid32? && info.props != 0
    && (ReadReq(info) != ATT_NOT_PERMITTED ==> Has(info.callbacks, ReadEvent))
    && (WriteReq(info) != ATT_NOT_PERMITTED ==> Has(info.callbacks, WriteEvent))
  }

  /** One turn of the loop that hangs the callbacks on the value's attribute. */
  function Hang(a: Attr, cb: Callback): Attr {
    match cb.event
    case ReadEvent => a.(readCb := Some(cb.fn), userData := Some(cb.userData))
    case WriteEvent => a.(writeCb := Some(cb.fn), userData := Some(cb.userData))
    case OtherEvent => a.(userData := Some(cb.userData))
  }

  function HangAll(a: Attr, cbs: seq<Callback>): Attr
    decreases |cbs|
  {
    if cbs == [] then a else HangAll(Hang(a, cbs[0]), cbs[1..])
  }

  /** The handles of the characteristic are below the last one. */
  predicate Room(info: Info, h: nat) {
    Acceptable(info) ==> h + Consumed(info) <= 0xFFFF
  }

  /** The declaration names the properties, the handle of the value and the UUID. */
  function DeclAttr(info: Info, h: U16): Attr
    requires Acceptable(info) && Room(info, h)
  {
    Plain(GATT_CHARAC_UUID, ATT_NONE, ATT_NOT_PERMITTED, [info.props] + Put16(h + 1) + Att.PutUuid(info.uuid.value))
  }

  function ValueAttr(info: Info): Attr
    requires Acceptable(info)
  {
    HangAll(Plain(info.uuid.value, ReadReq(info), WriteReq(info), []), info.callbacks)
  }

  function CccAttr(): Attr {
    Plain(GATT_CLIENT_CHARAC_CFG_UUID, ATT_NONE, ATT_AUTHENTICATION, [0x00, 0x00])
  }

  /** The attributes of a characteristic at handle h. */
  function CharAttrs(info: Info, h: U16): (m: Db)
    requires Acceptable(info) && Room(info, h)
    ensures forall k :: k in m <==> h <= k < h + Consumed(info)
  {
    map[h := DeclAttr(info, h), h + 1 := ValueAttr(info)]
    + if NeedsCcc(info.props) then map[h + 2 := CccAttr()] else map[]
  }

  /** How many attributes are in the database when add_characteristic gives up or succeeds. */
  function Added(db: Db, refuse: U16 -> bool, info: Info, h: U16): nat
    requires Room(info, h)
  {
    if !Acceptable(info) || h in db || refuse(h) then 0
    else if h + 1 in db || refuse(h + 1) then 1
    else if NeedsCcc(info.props) && (h + 2 in db || refuse(h + 2)) then 2
    else Consumed(info)
  }

  /** The first n attributes of a characteristic at handle h. */
  function FirstAttrs(info: Info, h: U16, n: nat): (m: Db)
    requires (n > 0 ==> Acceptable(info)) && Room(info, h) && n <= Consumed(info)
    ensures forall k :: k in m <==> h <= k < h + n
  {
    if n == 0 then map[] else map k | k in CharAttrs(info, h) && k < h + n :: CharAttrs(info, h)[k]
  }

  lemma HangNone(a: Attr, cbs: seq<Callback>)
    requires cbs == []
    ensures HangAll(a, cbs) == a
  {
  }

  lemma HangStep(a: Attr, cbs: seq<Callback>, i: nat)
    requires i < |cbs|
    ensures HangAll(a, cbs[i..]) == HangAll(Hang(a, cbs[i]), cbs[i + 1..])
  {
    assert cbs[i..][0] == cbs[i] && cbs[i..][1..] == cbs[i + 1..];
  }

  /** The value's attribute, with its callbacks. */
  method AddValue(adapter: Adapter, h: U16, info: Info) returns (ok: bool)
    requires Acceptable(info)
    modifies adapter
    ensures ok <==> h !in old(adapter.db) && !adapter.refuse(h)
    ensures adapter.db == if ok then old(adapter.db)[h := ValueAttr(info)] else old(adapter.db)
  {
    hide HangAll, ReadReq, WriteReq, Hang;
    ghost var was := adapter.db;
    var a := Plain(info.uuid.value, ReadReq(info), WriteReq(info), []);
    ok := adapter.DbAdd(h, a);
    if !ok {
      return;
    }
    var i := 0;
    assert info.callbacks[0..] == info.callbacks;
    while i < |info.callbacks|
      invariant i <= |info.callbacks|
      invariant HangAll(a, info.callbacks[i..]) == ValueAttr(info)
      invariant adapter.db == was[h := a]
    {
      HangStep(a, info.callbacks, i);
      a := Hang(a, info.callbacks[i]);
      adapter.db := adapter.db[h := a];
      i := i + 1;
    }
    HangNone(a, info.callbacks[i..]);
  }

  lemma AttrsInOrder(info: Info, h: U16)
    requires Acceptable(info) && Room(info, h)
    ensures FirstAttrs(info, h, 0) == map[]
    ensures FirstAttrs(info, h, 1) == map[h := DeclAttr(info, h)]
    ensures FirstAttrs(info, h, 2) == map[h := DeclAttr(info, h), h + 1 := ValueAttr(info)]
    ensures NeedsCcc(info.props) ==>
      FirstAttrs(info, h, 3) == map[h := DeclAttr(info, h), h + 1 := ValueAttr(info), h + 2 := CccAttr()]
  {
    hide NeedsCcc, Acceptable, DeclAttr, ValueAttr, CccAttr;
  }

  lemma NoAttrs(db: Db, info: Info, h: U16)
    requires Room(info, h)
    ensures db + FirstAttrs(info, h, 0) == db
  {
  }

  /** The database with the first attributes, one by one. */
  lemma OnTop(db: Db, info: Info, h: U16)
    requires Acceptable(info) && Room(info, h)
    ensures db + FirstAttrs(info, h, 0) == db
    ensures db + FirstAttrs(info, h, 1) == db[h := DeclAttr(info, h)]
    ensures db + FirstAttrs(info, h, 2) == db[h := DeclAttr(info, h)][h + 1 := ValueAttr(info)]
    ensures NeedsCcc(info.props) ==>
      db + FirstAttrs(info, h, 3) == db[h := DeclAttr(info, h)][h + 1 := ValueAttr(info)][h + 2 := CccAttr()]
  {
    hide NeedsCcc, Acceptable, DeclAttr, ValueAttr, CccAttr, FirstAttrs;
    AttrsInOrder(info, h);
  }

  /**
   add_characteristic: the handle moves only on success; on failure what was added stays. The handles
   of the value and of the descriptor are reported as soon as those are added, if they were asked for.
   */
  method AddCharacteristic(adapter: Adapter, handle: U16, info: Info)
    returns (ok: bool, next: U16, valueHandle: Option<U16>, cccHandle: Option<U16>)
    requires Room(info, handle)
    modifies adapter
    ensures var n := Added(old(adapter.db), adapter.refuse, info, handle);
      && ok == (Acceptable(info) && n == Consumed(info))
      && next == (if ok then handle + n else handle)
      && adapter.db == old(adapter.db) + FirstAttrs(info, handle, n)
      && valueHandle == (if info.valueHandle && n >= 2 then Some(handle + 1) else None)
      && cccHandle == (if info.cccHandle && n >= 3 then Some(handle + 2) else None)
  {
    hide NeedsCcc, HangAll, ReadReq, WriteReq, Acceptable, ValueAttr, FirstAttrs;
    ok, next, valueHandle, cccHandle := false, handle, None, None;
    if !Acceptable(info) {
      NoAttrs(adapter.db, info, handle);
      return;
    }
    OnTop(adapter.db, info, handle);
    var h := handle;
    var added := adapter.DbAdd(h, DeclAttr(info, h));
    if !added {
      return;
    }
    h := h + 1;
    added := AddValue(adapter, h, info);
    if !added {
      return;
    }
    if info.valueHandle {
      valueHandle := Some(h);
    }
    h := h + 1;
    if NeedsCcc(info.props) {
      added := adapter.DbAdd(h, CccAttr());
      if !added {
        return;
      }
      if info.cccHandle {
        cccHandle := Some(h);
      }
      h := h + 1;
    }
    ok, next := true, h;
  }

  function Handles(lo: nat, hi: nat): (s: set<U16>)
    requires hi <= 0x1_0000
    ensures forall k: U16 :: k in s <==> lo <= k < hi
    decreases hi - lo
  {
    if lo >= hi then {} else {lo} + Handles(lo + 1, hi)
  }

  /** service_attr_del counts in 16 bits, so it ends only below the last handle. */
  method ServiceAttrDel(adapter: Adapter, start: U16, end: U16)
    requires end < 0xFFFF
    modifies adapter
    ensures adapter.db == old(adapter.db) - Handles(start, end + 1)
  {
    var handle: U16 := start;
    while handle <= end
      invariant start <= handle && (handle <= end + 1 || handle == start)
      invariant adapter.db == old(adapter.db) - Handles(start, handle)
      decreases end + 1 - handle
    {
      var ok := adapter.DbDel(handle);
      assert Handles(start, handle) + {handle} == Handles(start, handle + 1);
      handle := handle + 1;
    }
    assert Handles(start, handle) == Handles(start, end + 1);
  }

  // ----- the whole service -----

  function Total(infos: seq<Info>): nat {
    if infos == [] then 0 else infos[0].numAttrs + Total(infos[1..])
  }

  function Size(infos: seq<Info>): nat { 1 + Total(infos) }

  function AllConsumed(infos: seq<Info>): nat {
    if infos == [] then 0 else Consumed(infos[0]) + AllConsumed(infos[1..])
  }

  /** No characteristic that can be added takes more attributes than were counted for it. */
  predicate Counted(infos: seq<Info>) {
    forall info :: info in infos && Acceptable(info) ==> Consumed(info) <= info.numAttrs
  }

  /**
   What adding the characteristics leaves: the database, the handle reached, and the attributes of the one that
   failed.
   */
  datatype Progress = Progress(db: Db, h: nat, ok: bool, leftover: nat)

  function AddChars(db: Db, refuse: U16 -> bool, infos: seq<Info>, h: nat): Progress
    requires Counted(infos) && h + Total(infos) <= 0xFFFF
    decreases |infos|
  {
    if infos == [] then Progress(db, h, true, 0)
    else
      assert infos[0] in infos;
      var n := Added(db, refuse, infos[0], h);
      var now := db + FirstAttrs(infos[0], h, n);
      if Acceptable(infos[0]) && n == Consumed(infos[0]) then AddChars(now, refuse, infos[1..], h + n)
      else Progress(now, h, false, n)
  }

  datatype Outcome = Registered | Failed | AssertionFails

  function ServiceAttr(svc: U16, u: Uuid): Attr
    requires u.Valid() && !u.Uuid32?
  {
    Plain(Uuid16(svc), ATT_NONE, ATT_NOT_PERMITTED, Att.PutUuid(u))
  }

  /** What attrib_db_find_avail promises: zero, or the start of `size` free handles below the last one. */
  predicate Avail(db: Db, start: U16, size: nat) {
    start != 0 ==> start + size <= 0xFFFF && forall k: U16 :: start <= k < start + size ==> k !in db
  }

  /** The service declaration goes in. */
  predicate Begins(refuse: U16 -> bool, u: Option<Uuid>, start: U16) {
    u.Some? && !u.value.Uuid32? && start != 0 && !refuse(start)
  }

  /** gatt_service_add, with the handle that attrib_db_find_avail gave. */
  function ServiceAdd(db: Db, refuse: U16 -> bool, svc: U16, u: Option<Uuid>, infos: seq<Info>, start: U16):
      (Outcome, Db)
    requires Counted(infos) && Avail(db, start, Size(infos)) && (u.Some? ==> u.value.Valid())
  {
    if !Begins(refuse, u, start) then (Failed, db)
    else
      var p := AddChars(db[start := ServiceAttr(svc, u.value)], refuse, infos, start + 1);
      if !p.ok then (Failed, p.db - Handles(start, Min(p.h, 0xFFFF)))
      else (if p.h - start == Size(infos) then Registered else AssertionFails, p.db)
  }

  /** The handle reached stays within the handles counted. */
  lemma {:induction false} HandleBound(db: Db, refuse: U16 -> bool, infos: seq<Info>, h: nat)
    requires Counted(infos) && h + Total(infos) <= 0xFFFF
    ensures h <= AddChars(db, refuse, infos, h).h <= h + Total(infos)
    decreases |infos|
  {
    hide Acceptable, Added, FirstAttrs;
    if infos != [] {
      assert infos[0] in infos;
      var n := Added(db, refuse, infos[0], h);
      if Acceptable(infos[0]) && n == Consumed(infos[0]) {
        HandleBound(db + FirstAttrs(infos[0], h, n), refuse, infos[1..], h + n);
      }
    }
  }

  lemma AddStep(db: Db, refuse: U16 -> bool, infos: seq<Info>, i: nat, h: nat)
    requires i < |infos| && Counted(infos) && h + Total(infos[i..]) <= 0xFFFF
    ensures Counted(infos[i..]) && Counted(infos[i + 1..]) && Room(infos[i], h)
    ensures var n := Added(db, refuse, infos[i], h);
      var now := db + FirstAttrs(infos[i], h, n);
      if Acceptable(infos[i]) && n == Consumed(infos[i])
      then h + n + Total(infos[i + 1..]) <= 0xFFFF
        && AddChars(db, refuse, infos[i..], h) == AddChars(now, refuse, infos[i + 1..], h + n)
      else AddChars(db, refuse, infos[i..], h) == Progress(now, h, false, n)
  {
    hide Acceptable, Added, FirstAttrs;
    var s := infos[i..];
    assert s[0] == infos[i] && s[1..] == infos[i + 1..];
    assert infos[i] in infos && forall x :: x in s || x in s[1..] ==> x in infos;
  }

  lemma AddNone(db: Db, refuse: U16 -> bool, infos: seq<Info>, h: nat)
    requires infos == [] && h <= 0xFFFF
    ensures AddChars(db, refuse, infos, h) == Progress(db, h, true, 0)
  {
  }

  /** The loop of gatt_service_add over the characteristics. */
  method AddCharacteristics(adapter: Adapter, infos: seq<Info>, start: U16) returns (ok: bool, h: nat)
    requires Counted(infos) && start + Total(infos) <= 0xFFFF
    modifies adapter
    ensures var p := AddChars(old(adapter.db), adapter.refuse, infos, start);
      adapter.db == p.db && ok == p.ok && h == p.h
  {
    hide Acceptable, Added, FirstAttrs, AddChars, Counted;
    h := start;
    var i := 0;
    assert infos[0..] == infos;
    while i < |infos|
      invariant i <= |infos| && h + Total(infos[i..]) <= 0xFFFF && Counted(infos[i..])
      invariant AddChars(adapter.db, adapter.refuse, infos[i..], h)
        == AddChars(old(adapter.db), adapter.refuse, infos, start)
    {
      AddStep(adapter.db, adapter.refuse, infos, i, h);
      var valueHandle, cccHandle;
      ok, h, valueHandle, cccHandle := AddCharacteristic(adapter, h, infos[i]);
      if !ok {
        return;
      }
      i := i + 1;
    }
    AddNone(adapter.db, adapter.refuse, infos[i..], h);
    ok := true;
  }

  method SizeOf(infos: seq<Info>) returns (size: nat)
    ensures size == Size(infos)
  {
    size := 1;
    var i := 0;
    assert infos[0..] == infos;
    while i < |infos|
      invariant i <= |infos| && size + Total(infos[i..]) == Size(infos)
    {
      assert infos[i..][0] == infos[i] && infos[i..][1..] == infos[i + 1..];
      size := size + infos[i].numAttrs;
      i := i + 1;
    }
  }

  lemma NamedUuid(info: Info)
    requires Acceptable(info)
    ensures info.uuid.Some? && info.props != 0
  {
  }

  /** A group that names a UUID and sets properties counts enough for what they need. */
  lemma GroupEnough(g: seq<Opt>)
    requires Uuids(g) <= 1
    ensures var r := Fold(BLANK, g);
      r.uuid.Some? && r.props != 0 ==> Consumed(r) <= r.numAttrs
  {
    hide NeedsCcc, Fold;
    FoldCounts(BLANK, g);
  }

  lemma GroupsNamed(opts: seq<Opt>)
    ensures forall i :: 0 <= i < |Groups(opts)| ==> Uuids(Groups(opts)[i]) <= 1
  {
    hide Groups, Uuids;
    GroupUuids(opts);
  }

  /** What a parsed option list counts is enough for every characteristic it can add. */
  lemma ParsedCounted(opts: seq<Opt>)
    ensures Counted(Parse(BLANK, opts))
  {
    hide NeedsCcc, Acceptable, Consumed, Parse, Fold, Uuids, Groups;
    var infos := Parse(BLANK, opts);
    ParseIsGroups(BLANK, opts);
    GroupsNamed(opts);
    forall info | info in infos && Acceptable(info)
      ensures Consumed(info) <= info.numAttrs
    {
      var i :| 0 <= i < |infos| && infos[i] == info;
      NamedUuid(info);
      GroupEnough(Groups(opts)[i]);
    }
  }

  /** The handles attrib_db_find_avail gives for a list of options. */
  function StartFor(db: Db, findAvail: (Db, nat) -> U16, opts: seq<Opt>): U16 {
    findAvail(db, Size(Parse(BLANK, opts)))
  }

  /** The part of gatt_service_add that touches the database. */
  method RegisterAt(adapter: Adapter, svc: U16, u: Uuid, infos: seq<Info>, size: nat, start: U16) returns (r: Outcome)
    requires Counted(infos) && Avail(adapter.db, start, Size(infos)) && u.Valid() && !u.Uuid32? && start != 0
    requires size == Size(infos)
    modifies adapter
    ensures (r, adapter.db) == ServiceAdd(old(adapter.db), adapter.refuse, svc, Some(u), infos, start)
  {
    hide AddChars, Counted, Handles, Total;
    var added := adapter.DbAdd(start, ServiceAttr(svc, u));
    if !added {
      return Failed;
    }
    HandleBound(adapter.db, adapter.refuse, infos, start + 1);
    var ok, h := AddCharacteristics(adapter, infos, start + 1);
    if !ok {
      ServiceAttrDel(adapter, start, h - 1);
      return Failed;
    }
    return if h - start == size then Registered else AssertionFails;
  }

  /** gatt_service_add. */
  method GattServiceAdd(adapter: Adapter, svc: U16, u: Option<Uuid>, opts: seq<Opt>) returns (r: Outcome)
    requires u.Some? ==> u.value.Valid()
    requires Avail(adapter.db, StartFor(adapter.db, adapter.findAvail, opts), Size(Parse(BLANK, opts)))
    modifies adapter
    ensures Counted(Parse(BLANK, opts))
    ensures (r, adapter.db) == ServiceAdd(old(adapter.db), adapter.refuse, svc, u, Parse(BLANK, opts),
                                          StartFor(old(adapter.db), adapter.findAvail, opts))
  {
    hide AddChars, Counted, Handles, Parse, Total;
    ParsedCounted(opts);
    if u.None? || u.value.Uuid32? {
      return Failed;
    }
    var infos := ParseOpts(opts);
    var size := SizeOf(infos);
    var start := adapter.findAvail(adapter.db, size);
    if start == 0 {
      return Failed;
    }
    r := RegisterAt(adapter, svc, u.value, infos, size, start);
  }

  // ----- what registration guarantees -----

  /** The database has grown by exactly the handles from lo to below hi. */
  predicate Grown(db: Db, now: Db, lo: nat, hi: nat) {
    && (forall k: U16 :: k < lo || k >= hi ==> (k in now <==> k in db) && (k in db ==> now[k] == db[k]))
    && (forall k: U16 :: lo <= k < hi ==> k in now)
  }

  lemma GrownMore(db: Db, mid: Db, now: Db, lo: nat, m: nat, hi: nat)
    requires lo <= m <= hi && Grown(db, mid, lo, m) && Grown(mid, now, m, hi)
    ensures Grown(db, now, lo, hi)
  {
  }

  lemma GrownFirst(db: Db, info: Info, h: U16, n: nat)
    requires (n > 0 ==> Acceptable(info)) && Room(info, h) && n <= Consumed(info)
    ensures Grown(db, db + FirstAttrs(info, h, n), h, h + n)
  {
    hide Acceptable, Consumed;
  }

  lemma AddedAtMost(db: Db, refuse: U16 -> bool, info: Info, h: U16)
    requires Room(info, h)
    ensures Added(db, refuse, info, h) <= Consumed(info) && (!Acceptable(info) ==> Added(db, refuse, info, h) == 0)
  {
  }

  lemma TotalStep(infos: seq<Info>)
    requires infos != [] && Counted(infos)
    ensures Acceptable(infos[0]) ==> Consumed(infos[0]) + Total(infos[1..]) <= Total(infos)
  {
    assert infos[0] in infos;
  }

  /** Everything from h to behind the last attribute added is filled, and nothing else has changed. */
  predicate Framed(db: Db, p: Progress, h: nat, bound: nat) {
    Grown(db, p.db, h, p.h + p.leftover) && h <= p.h && p.h + p.leftover <= bound
  }

  lemma FramedNot(db: Db, h: nat, bound: nat)
    requires h <= bound
    ensures Framed(db, Progress(db, h, true, 0), h, bound)
  {
  }

  lemma FramedStop(db: Db, now: Db, h: nat, n: nat, bound: nat)
    requires Grown(db, now, h, h + n) && h + n <= bound
    ensures Framed(db, Progress(now, h, false, n), h, bound)
  {
    hide Grown;
  }

  lemma FramedOn(db: Db, now: Db, p: Progress, h: nat, n: nat, bound: nat)
    requires Grown(db, now, h, h + n) && Framed(now, p, h + n, bound)
    ensures Framed(db, p, h, bound)
  {
    hide Grown;
    GrownMore(db, now, p.db, h, h + n, p.h + p.leftover);
  }

  lemma FramedWithin(db: Db, p: Progress, h: nat, bound: nat, more: nat)
    requires Framed(db, p, h, bound) && bound <= more
    ensures Framed(db, p, h, more)
  {
  }

  /** Adding characteristics fills exactly the handles from the first to behind the last attribute added. */
  lemma {:induction false} AddCharsFrame(db: Db, refuse: U16 -> bool, infos: seq<Info>, h: nat)
    requires Counted(infos) && h + Total(infos) <= 0xFFFF
    ensures Framed(db, AddChars(db, refuse, infos, h), h, h + Total(infos))
    decreases |infos|
  {
    hide Acceptable, Consumed, FirstAttrs, Added, Grown, Framed;
    if infos == [] {
      FramedNot(db, h, h);
    } else {
      hide AddChars, Counted;
      assert infos[0..] == infos;
      AddStep(db, refuse, infos, 0, h);
      var n := Added(db, refuse, infos[0], h);
      AddedAtMost(db, refuse, infos[0], h);
      TotalStep(infos);
      var now := db + FirstAttrs(infos[0], h, n);
      GrownFirst(db, infos[0], h, n);
      if Acceptable(infos[0]) && n == Consumed(infos[0]) {
        AddCharsFrame(now, refuse, infos[1..], h + n);
        FramedWithin(now, AddChars(now, refuse, infos[1..], h + n), h + n, h + n + Total(infos[1..]), h + Total(infos));
        FramedOn(db, now, AddChars(now, refuse, infos[1..], h + n), h, n, h + Total(infos));
      } else {
        FramedStop(db, now, h, n, h + Total(infos));
      }
    }
  }

  /**
   Some characteristic that the registration reaches is refused in the middle: its declaration goes in, but not
   all of it.
   */
  predicate Cut(refuse: U16 -> bool, infos: seq<Info>, h: nat)
    requires Counted(infos) && h + Total(infos) <= 0xFFFF
    decreases |infos|
  {
    infos != [] &&
    var info := infos[0];
    assert info in infos;
    Acceptable(info) && !refuse(h) &&
    (refuse(h + 1) || (NeedsCcc(info.props) && refuse(h + 2)) || Cut(refuse, infos[1..], h + Consumed(info)))
  }

  lemma FreeAdded(db: Db, refuse: U16 -> bool, info: Info, h: U16)
    requires Room(info, h) && (Acceptable(info) ==> forall k: U16 :: h <= k < h + Consumed(info) ==> k !in db)
    ensures var n := Added(db, refuse, info, h);
      && (0 < n < Consumed(info) <==>
         Acceptable(info) && !refuse(h) && (refuse(h + 1) || (NeedsCcc(info.props) && refuse(h + 2))))
      && (n == Consumed(info) <==>
         Acceptable(info) && !refuse(h) && !refuse(h + 1) && !(NeedsCcc(info.props) && refuse(h + 2)))
  {
    hide Acceptable, NeedsCcc;
  }

  /** The attributes of all characteristics, each at the handle behind the one before. */
  function Layout(infos: seq<Info>, h: nat): (m: Db)
    requires Counted(infos) && h + Total(infos) <= 0xFFFF && (forall info :: info in infos ==> Acceptable(info))
    decreases |infos|
  {
    if infos == [] then map[]
    else
      assert infos[0] in infos;
      CharAttrs(infos[0], h) + Layout(infos[1..], h + Consumed(infos[0]))
  }

  lemma NothingToAdd(db: Db, refuse: U16 -> bool, infos: seq<Info>, h: nat)
    requires infos == [] && h <= 0xFFFF
    ensures AddChars(db, refuse, infos, h) == Progress(db + Layout(infos, h), h, true, 0)
  {
    assert db + map[] == db;
  }

  /** On free handles, adding characteristics leaves a part of one behind exactly if one is refused in the middle. */
  lemma {:induction false} LeftoverExactly(db: Db, refuse: U16 -> bool, infos: seq<Info>, h: nat)
    requires Counted(infos) && h + Total(infos) <= 0xFFFF
    requires forall k: U16 :: h <= k < h + Total(infos) ==> k !in db
    ensures AddChars(db, refuse, infos, h).leftover > 0 <==> Cut(refuse, infos, h)
    ensures AddChars(db, refuse, infos, h).leftover > 0 ==> !AddChars(db, refuse, infos, h).ok
    decreases |infos|
  {
    hide Acceptable, NeedsCcc, FirstAttrs, Added, AddChars;
    if infos == [] {
      NothingToAdd(db, refuse, infos, h);
    } else {
      var info := infos[0];
      assert info in infos;
      AddStep(db, refuse, infos, 0, h);
      assert infos[0..] == infos;
      FreeAdded(db, refuse, info, h);
      AddedAtMost(db, refuse, info, h);
      var n := Added(db, refuse, info, h);
      if Acceptable(info) && n == Consumed(info) {
        LeftoverExactly(db + FirstAttrs(info, h, n), refuse, infos[1..], h + n);
      }
    }
  }

  /**
   A failed registration leaves something behind in the attribute database if and only if its
   declaration goes in and one of the characteristics is refused in the middle.
   */
  lemma RollbackExactly(db: Db, refuse: U16 -> bool, svc: U16, u: Option<Uuid>, infos: seq<Info>, start: U16)
    requires Counted(infos) && Avail(db, start, Size(infos)) && (u.Some? ==> u.value.Valid())
    ensures var (r, now) := ServiceAdd(db, refuse, svc, u, infos, start);
      r == Failed && now != db <==> Begins(refuse, u, start) && Cut(refuse, infos, start + 1)
  {
    hide AddChars, Counted, Cut, Att.PutUuid;
    if Begins(refuse, u, start) {
      var with := db[start := ServiceAttr(svc, u.value)];
      var p := AddChars(with, refuse, infos, start + 1);
      HandleBound(with, refuse, infos, start + 1);
      AddCharsFrame(with, refuse, infos, start + 1);
      LeftoverExactly(with, refuse, infos, start + 1);
      var after := p.db - Handles(start, p.h);
      if p.leftover == 0 {
        assert !p.ok ==> after == db;
      } else {
        assert p.h in after && p.h !in db;
      }
    }
  }

  /** A readable characteristic whose value is refused: its declaration stays in the database. */
  lemma PartialStays()
    ensures var infos :=
        [Info(Some(Uuid16(0x2A00)), 0x02, NoProtection, NoProtection, [Callback(ReadEvent, 1, 1)], 2, false, false)];
      var (r, now) := ServiceAdd(map[], (k: U16) => k == 3, 0x2800, Some(Uuid16(0x1800)), infos, 1);
      r == Failed && now != map[]
  {
    hide ServiceAdd;
    var info :=
      Info(Some(Uuid16(0x2A00)), 0x02, NoProtection, NoProtection, [Callback(ReadEvent, 1, 1)], 2, false, false);
    assert Callback(ReadEvent, 1, 1) in info.callbacks;
    assert Total([info]) == 2;
    RollbackExactly(map[], (k: U16) => k == 3, 0x2800, Some(Uuid16(0x1800)), [info], 1);
  }

  lemma WholeChar(db: Db, refuse: U16 -> bool, info: Info, h: U16)
    requires Acceptable(info) && Room(info, h)
    requires forall k: U16 :: h <= k < h + Consumed(info) ==> k !in db && !refuse(k)
    ensures Added(db, refuse, info, h) == Consumed(info) && FirstAttrs(info, h, Consumed(info)) == CharAttrs(info, h)
  {
    hide Acceptable, NeedsCcc;
  }

  /** What a characteristic at h leaves free stays free. */
  lemma StillFree(db: Db, refuse: U16 -> bool, info: Info, h: U16, end: nat)
    requires Acceptable(info) && Room(info, h)
    requires forall k: U16 :: h <= k < end ==> k !in db && !refuse(k)
    ensures forall k: U16 :: h + Consumed(info) <= k < end ==> k !in db + CharAttrs(info, h) && !refuse(k)
  {
    hide Acceptable, Consumed;
  }

  /** The first characteristic goes in whole, and the others find their handles as free as before. */
  lemma FirstSucceeds(db: Db, refuse: U16 -> bool, infos: seq<Info>, h: nat)
    requires infos != [] && Counted(infos) && h + Total(infos) <= 0xFFFF
    requires forall info :: info in infos ==> Acceptable(info)
    requires forall k: U16 :: h <= k < h + Total(infos) ==> k !in db && !refuse(k)
    ensures Room(infos[0], h) && Counted(infos[1..]) && (forall info :: info in infos[1..] ==> Acceptable(info))
    ensures Acceptable(infos[0])
    ensures var next := h + Consumed(infos[0]);
      var now := db + CharAttrs(infos[0], h);
      && next + Total(infos[1..]) <= 0xFFFF
      && AddChars(db, refuse, infos, h) == AddChars(now, refuse, infos[1..], next)
      && Layout(infos, h) == CharAttrs(infos[0], h) + Layout(infos[1..], next)
      && forall k: U16 :: next <= k < next + Total(infos[1..]) ==> k !in now && !refuse(k)
  {
    hide Acceptable, Consumed, FirstAttrs, CharAttrs, Added, Room;
    assert infos[0] in infos;
    AddStep(db, refuse, infos, 0, h);
    assert infos[0..] == infos;
    WholeChar(db, refuse, infos[0], h);
    StillFree(db, refuse, infos[0], h, h + Total(infos));
  }

  lemma MapsAssoc(a: Db, b: Db, c: Db)
    ensures (a + b) + c == a + (b + c)
  {
  }

  /** With acceptable characteristics and free handles that are not refused, every attribute lands at its place. */
  lemma {:induction false} AddCharsSucceeds(db: Db, refuse: U16 -> bool, infos: seq<Info>, h: nat)
    requires Counted(infos) && h + Total(infos) <= 0xFFFF && (forall info :: info in infos ==> Acceptable(info))
    requires forall k: U16 :: h <= k < h + Total(infos) ==> k !in db && !refuse(k)
    ensures AddChars(db, refuse, infos, h) == Progress(db + Layout(infos, h), h + AllConsumed(infos), true, 0)
    decreases |infos|
  {
    hide Acceptable, Consumed, CharAttrs, Room, Counted, AddChars, Layout;
    if infos == [] {
      NothingToAdd(db, refuse, infos, h);
    } else {
      FirstSucceeds(db, refuse, infos, h);
      var c, next := CharAttrs(infos[0], h), h + Consumed(infos[0]);
      AddCharsSucceeds(db + c, refuse, infos[1..], next);
      MapsAssoc(db, c, Layout(infos[1..], next));
    }
  }

  lemma {:induction false} TotalExact(infos: seq<Info>)
    requires Counted(infos) && forall info :: info in infos ==> Acceptable(info)
    ensures AllConsumed(infos) <= Total(infos)
    ensures AllConsumed(infos) == Total(infos) <==> forall info :: info in infos ==> info.numAttrs == Consumed(info)
  {
    hide Acceptable, Consumed;
    if infos != [] {
      assert infos[0] in infos;
      assert forall x :: x in infos <==> x == infos[0] || x in infos[1..];
      TotalExact(infos[1..]);
    }
  }

  lemma GrownOne(db: Db, h: U16, a: Attr)
    ensures Grown(db, db[h := a], h, h + 1)
  {
  }

  /**
   With acceptable characteristics and no refusal the service and its characteristics fill consecutive
   handles; the final assertion holds if and only if every characteristic was counted exactly.
   */
  lemma RegistersExactly(db: Db, refuse: U16 -> bool, svc: U16, u: Uuid, infos: seq<Info>, start: U16)
    requires Counted(infos) && Avail(db, start, Size(infos)) && start != 0 && u.Valid() && !u.Uuid32?
    requires (forall info :: info in infos ==> Acceptable(info))
    requires forall k: U16 :: start <= k < start + Size(infos) ==> !refuse(k)
    ensures var (r, now) := ServiceAdd(db, refuse, svc, Some(u), infos, start);
      && now == db[start := ServiceAttr(svc, u)] + Layout(infos, start + 1)
      && Grown(db, now, start, start + 1 + AllConsumed(infos))
      && r == if forall info :: info in infos ==> info.numAttrs == Consumed(info) then Registered else AssertionFails
  {
    hide Acceptable, Consumed, AddChars, Counted, Layout, Att.PutUuid, Grown;
    var with := db[start := ServiceAttr(svc, u)];
    AddCharsSucceeds(with, refuse, infos, start + 1);
    AddCharsFrame(with, refuse, infos, start + 1);
    TotalExact(infos);
    GrownOne(db, start, ServiceAttr(svc, u));
    GrownMore(db, with, with + Layout(infos, start + 1), start, start + 1, start + 1 + AllConsumed(infos));
  }

  // ----- what clients read -----

  lemma NotifyBits(props: Byte)
    ensures NeedsCcc(props) <==> Bit(props, 4) || Bit(props, 5)
  {
  }

  lemma ReadableBit(props: Byte)
    ensures (props as bv8) & 0x02 == 0 <==> !Bit(props, 1)
  {
  }

  lemma WritableBits(props: Byte)
    ensures (props as bv8) & 0x0C == 0 <==> !Bit(props, 2) && !Bit(props, 3)
  {
  }

  /**
   What a client must show before it may read: authorization if reading is under it, or else authentication if
   reading is under that, or else nothing if the properties say that it can be read.
   */
  predicate ReadNeeds(need: Req, info: Info) {
    if info.authorization == ProtectRead || info.authorization == ProtectBoth then need == ATT_AUTHORIZATION
    else if info.authentication == ProtectRead || info.authentication == ProtectBoth then need == ATT_AUTHENTICATION
    else need == if Bit(info.props, 1) then ATT_NONE else ATT_NOT_PERMITTED
  }

  /** The same for writing, with or without a response. */
  predicate WriteNeeds(need: Req, info: Info) {
    if info.authorization == ProtectWrite || info.authorization == ProtectBoth then need == ATT_AUTHORIZATION
    else if info.authentication == ProtectWrite || info.authentication == ProtectBoth then need == ATT_AUTHENTICATION
    else need == if Bit(info.props, 2) || Bit(info.props, 3) then ATT_NONE else ATT_NOT_PERMITTED
  }

  lemma NeedsAre(info: Info)
    ensures ReadNeeds(ReadReq(info), info) && WriteNeeds(WriteReq(info), info)
  {
    hide Bit;
    ReadableBit(info.props);
    WritableBits(info.props);
  }

  /** The function of the last callback for the event. */
  function LastFor(cbs: seq<Callback>, event: Kind): Option<nat> {
    if cbs == [] then None
    else if cbs[|cbs| - 1].event == event then Some(cbs[|cbs| - 1].fn)
    else LastFor(cbs[..|cbs| - 1], event)
  }

  lemma {:induction false} HangSnoc(a: Attr, cbs: seq<Callback>, cb: Callback)
    ensures HangAll(a, cbs + [cb]) == Hang(HangAll(a, cbs), cb)
    decreases |cbs|
  {
    hide Hang;
    if cbs == [] {
      assert [cb][1..] == [] && [] + [cb] == [cb];
    } else {
      HangSnoc(Hang(a, cbs[0]), cbs[1..], cb);
      assert (cbs + [cb])[1..] == cbs[1..] + [cb];
    }
  }

  /** Reads and writes go to the last callback for them, with the user data of the last callback of all. */
  lemma {:induction false} HungLast(a: Attr, cbs: seq<Callback>)
    requires a.readCb == a.writeCb == a.userData == None
    ensures HangAll(a, cbs) == a.(readCb := LastFor(cbs, ReadEvent), writeCb := LastFor(cbs, WriteEvent),
      userData := if cbs == [] then None else Some(cbs[|cbs| - 1].userData))
  {
    if cbs != [] {
      hide HangAll;
      var front, cb := cbs[..|cbs| - 1], cbs[|cbs| - 1];
      assert cbs == front + [cb];
      HungLast(a, front);
      HangSnoc(a, front, cb);
    } else {
      HangNone(a, cbs);
    }
  }

  lemma {:induction false} LastForHas(cbs: seq<Callback>, event: Kind)
    ensures LastFor(cbs, event).Some? <==> Has(cbs, event)
  {
    if cbs != [] {
      var front, cb := cbs[..|cbs| - 1], cbs[|cbs| - 1];
      LastForHas(front, event);
      assert cbs == front + [cb];
      if Has(front, event) {
        var x :| x in front && x.event == event;
        assert x in cbs;
      }
      if Has(cbs, event) && cb.event != event {
        var x :| x in cbs && x.event == event;
        assert x in front;
      }
    }
  }

  /**
   A client that reads the declarations finds one at h, with the properties and the UUID of the characteristic, that
   names the handle behind it; there the value is, with the same UUID, the permissions that the characteristic asks
   for and its callbacks, one for whatever a client may do; and behind it the configuration, if there are
   notifications or indications.
   */
  ghost predicate Stands(m: Db, info: Info, h: nat) {
    && info.uuid.Some? && info.uuid.value.Valid() && !info.uuid.value.Uuid32?
    && h + 1 < 0xFFFF && h in m && h + 1 in m
    && var d, v := m[h], m[h + 1];
    && d.uuid == Uuid16(0x2803) && d.read == ATT_NONE && d.write == ATT_NOT_PERMITTED
    && |d.value| in [5, 19]
    && GattChars.FoundOne(Put16(h) + d.value, None)
      == [GattChars.GattChar(h, info.props, h + 1, ToString(To128(info.uuid.value)))]
    && v.uuid == info.uuid.value && ReadNeeds(v.read, info) && WriteNeeds(v.write, info) && v.value == []
    && v.readCb == LastFor(info.callbacks, ReadEvent) && v.writeCb == LastFor(info.callbacks, WriteEvent)
    && (v.read != ATT_NOT_PERMITTED ==> v.readCb.Some?) && (v.write != ATT_NOT_PERMITTED ==> v.writeCb.Some?)
    && (Bit(info.props, 4) || Bit(info.props, 5) ==>
         h + 2 < 0xFFFF && h + 2 in m
         && m[h + 2] == Attr(Uuid16(0x2902), ATT_NONE, ATT_AUTHENTICATION, [0x00, 0x00], None, None, None))
  }

  lemma ValueIs(info: Info)
    requires Acceptable(info)
    ensures var v := ValueAttr(info);
      && v.uuid == info.uuid.value && ReadNeeds(v.read, info) && WriteNeeds(v.write, info) && v.value == []
      && v.readCb == LastFor(info.callbacks, ReadEvent) && v.writeCb == LastFor(info.callbacks, WriteEvent)
      && (v.read != ATT_NOT_PERMITTED ==> v.readCb.Some?) && (v.write != ATT_NOT_PERMITTED ==> v.writeCb.Some?)
  {
    hide ReadReq, WriteReq, ReadNeeds, WriteNeeds, HangAll, Has, LastFor;
    NeedsAre(info);
    HungLast(Plain(info.uuid.value, ReadReq(info), WriteReq(info), []), info.callbacks);
    LastForHas(info.callbacks, ReadEvent);
    LastForHas(info.callbacks, WriteEvent);
  }

  lemma {:induction false} CallbacksOf(g: seq<Opt>, cb: Callback)
    ensures cb in CallbacksIn(g) <==> ValueCb(cb) in g
  {
    if g != [] {
      var front, o := g[..|g| - 1], g[|g| - 1];
      CallbacksOf(front, cb);
      assert g == front + [o];
    }
  }

  /** An option hangs a callback for the event on the value. */
  ghost predicate Answers(g: seq<Opt>, event: Kind) {
    exists cb :: ValueCb(cb) in g && cb.event == event
  }

  /** The options of a characteristic let its value be read, or protect it against reading. */
  predicate OpensReading(g: seq<Opt>) {
    || Bit(LastProperties(g), 1)
    || LastAuthentication(g) in {ProtectRead, ProtectBoth} || LastAuthorization(g) in {ProtectRead, ProtectBoth}
  }

  predicate OpensWriting(g: seq<Opt>) {
    || Bit(LastProperties(g), 2) || Bit(LastProperties(g), 3)
    || LastAuthentication(g) in {ProtectWrite, ProtectBoth} || LastAuthorization(g) in {ProtectWrite, ProtectBoth}
  }

  lemma AnswersHas(g: seq<Opt>, event: Kind)
    ensures Has(CallbacksIn(g), event) <==> Answers(g, event)
  {
    forall cb | true
      ensures cb in CallbacksIn(g) <==> ValueCb(cb) in g
    {
      CallbacksOf(g, cb);
    }
  }

  /** From the options: which characteristics pass validation. */
  lemma AcceptedExactly(opts: seq<Opt>, i: nat)
    requires i < |Groups(opts)|
    ensures i < |Parse(BLANK, opts)|
    ensures var g, u := Groups(opts)[i], LastUuid(Groups(opts)[i]);
      Acceptable(Parse(BLANK, opts)[i]) <==>
        && u.Some? && u.value.Valid() && !u.value.Uuid32? && LastProperties(g) > 0
        && (OpensReading(g) ==> Answers(g, ReadEvent)) && (OpensWriting(g) ==> Answers(g, WriteEvent))
  {
    hide Groups, Parse, ReadReq, WriteReq, Has, Answers, LastUuid, CallbacksIn, Bit;
    ParsedGathers(opts, i);
    NeedsAre(Parse(BLANK, opts)[i]);
    AnswersHas(Groups(opts)[i], ReadEvent);
    AnswersHas(Groups(opts)[i], WriteEvent);
  }

  lemma DeclIs(info: Info, h: U16)
    requires Acceptable(info) && Room(info, h)
    ensures var d := DeclAttr(info, h);
      && |d.value| in [5, 19]
      && GattChars.FoundOne(Put16(h) + d.value, None)
        == [GattChars.GattChar(h, info.props, h + 1, ToString(To128(info.uuid.value)))]
  {
    hide ReadReq, WriteReq, Has, NeedsCcc;
    var d := GattChars.Decl(h, info.props, h + 1, info.uuid.value);
    assert Put16(h) + DeclAttr(info, h).value == GattChars.PutDecl(d);
    hide GattChars.PutDecl, GattChars.FoundOne, ToString;
    GattChars.OneIsWanted(d, None);
  }

  /** The attributes of one characteristic, wherever they are. */
  lemma CharStands(m: Db, info: Info, h: U16)
    requires Acceptable(info) && Room(info, h)
    requires forall k :: k in CharAttrs(info, h) ==> k in m && m[k] == CharAttrs(info, h)[k]
    ensures Stands(m, info, h)
  {
    hide HangAll, ReadReq, WriteReq, ReadNeeds, WriteNeeds, Has, LastFor, NeedsCcc, Bit, GattChars.FoundOne, ToString;
    NotifyBits(info.props);
    DeclIs(info, h);
    ValueIs(info);
    hide DeclAttr, ValueAttr;
    var c := CharAttrs(info, h);
    assert h in c && h + 1 in c;
    if NeedsCcc(info.props) {
      assert h + 2 in c;
    }
  }

  lemma {:induction false} LayoutRange(infos: seq<Info>, h: nat)
    requires Counted(infos) && h + Total(infos) <= 0xFFFF && (forall info :: info in infos ==> Acceptable(info))
    ensures forall k :: k in Layout(infos, h) ==> h <= k < h + AllConsumed(infos)
    decreases |infos|
  {
    hide Acceptable, Consumed, CharAttrs;
    if infos != [] {
      assert infos[0] in infos;
      LayoutRange(infos[1..], h + Consumed(infos[0]));
    }
  }

  /** Every characteristic stands where the ones before it end. */
  lemma CharRange(info: Info, h: U16)
    requires Acceptable(info) && Room(info, h)
    ensures forall k :: k in CharAttrs(info, h) ==> k < h + Consumed(info)
  {
    hide Acceptable;
  }

  lemma FirstRoom(infos: seq<Info>, h: nat)
    requires infos != [] && Counted(infos) && h + Total(infos) <= 0xFFFF && Acceptable(infos[0])
    ensures Room(infos[0], h)
  {
    assert infos[0] in infos;
  }

  /** The first characteristic's attributes and those of the others are all there. */
  lemma LayoutHolds(infos: seq<Info>, h: nat)
    requires infos != [] && Counted(infos) && h + Total(infos) <= 0xFFFF
    requires forall info :: info in infos ==> Acceptable(info)
    ensures Room(infos[0], h)
    ensures var m, first := Layout(infos, h), CharAttrs(infos[0], h);
      forall k :: k in first ==> k in m && m[k] == first[k]
    ensures Counted(infos[1..]) && h + Consumed(infos[0]) + Total(infos[1..]) <= 0xFFFF
    ensures var m, rest := Layout(infos, h), Layout(infos[1..], h + Consumed(infos[0]));
      forall k :: k in rest ==> k in m && m[k] == rest[k]
  {
    hide Acceptable, CharAttrs, Room;
    assert infos[0] in infos;
    FirstRoom(infos, h);
    LayoutRange(infos[1..], h + Consumed(infos[0]));
    CharRange(infos[0], h);
  }

  lemma {:induction false} LayoutStands(m: Db, infos: seq<Info>, h: nat, i: nat)
    requires Counted(infos) && h + Total(infos) <= 0xFFFF && (forall info :: info in infos ==> Acceptable(info))
    requires i < |infos| && forall k :: k in Layout(infos, h) ==> k in m && m[k] == Layout(infos, h)[k]
    ensures Stands(m, infos[i], h + AllConsumed(infos[..i]))
    decreases |infos|
  {
    hide Acceptable, Consumed, CharAttrs, Stands, Room, Layout, Counted, Total;
    assert infos[0] in infos;
    LayoutHolds(infos, h);
    if i == 0 {
      CharStands(m, infos[0], h);
      assert infos[..0] == [];
    } else {
      LayoutStands(m, infos[1..], h + Consumed(infos[0]), i - 1);
      assert infos[..i][0] == infos[0] && infos[..i][1..] == infos[1..][..i - 1];
    }
  }

  /**
   After a registration without refusals clients find the service at its handle and every characteristic behind it,
   each where the ones before it end.
   */
  lemma ClientsFind(db: Db, refuse: U16 -> bool, svc: U16, u: Uuid, infos: seq<Info>, start: U16, i: nat)
    requires Counted(infos) && Avail(db, start, Size(infos)) && start != 0 && u.Valid() && !u.Uuid32?
    requires (forall info :: info in infos ==> Acceptable(info)) && i < |infos|
    requires forall k: U16 :: start <= k < start + Size(infos) ==> !refuse(k)
    ensures var now := ServiceAdd(db, refuse, svc, Some(u), infos, start).1;
      && start in now && now[start].uuid == Uuid16(svc)
      && now[start].read == ATT_NONE && now[start].write == ATT_NOT_PERMITTED
      && |now[start].value| in [2, 16] && Att.GetUuid(now[start].value) == u
      && Stands(now, infos[i], start + 1 + AllConsumed(infos[..i]))
  {
    hide Acceptable, Consumed, ServiceAdd, Counted, Layout, Grown, Stands, Att.PutUuid, Att.GetUuid;
    var now := ServiceAdd(db, refuse, svc, Some(u), infos, start).1;
    RegistersExactly(db, refuse, svc, u, infos, start);
    LayoutRange(infos, start + 1);
    LayoutStands(now, infos, start + 1, i);
    Att.GetPutUuid(u);
  }

  /** Where no handle is refused, a characteristic adds everything or, if it is not acceptable, nothing. */
  lemma {:induction false} NothingLeftOver(db: Db, refuse: U16 -> bool, infos: seq<Info>, h: nat)
    requires Counted(infos) && h + Total(infos) <= 0xFFFF
    requires forall k: U16 :: h <= k < h + Total(infos) ==> k !in db && !refuse(k)
    ensures AddChars(db, refuse, infos, h).leftover == 0
    ensures AddChars(db, refuse, infos, h).ok <==> forall info :: info in infos ==> Acceptable(info)
    decreases |infos|
  {
    hide Acceptable, Consumed, FirstAttrs, CharAttrs, Added, Room, AddChars;
    if infos == [] {
      NothingToAdd(db, refuse, infos, h);
    } else {
      var info := infos[0];
      assert info in infos;
      assert forall x :: x in infos <==> x == info || x in infos[1..];
      AddStep(db, refuse, infos, 0, h);
      assert infos[0..] == infos;
      if Acceptable(info) {
        WholeChar(db, refuse, info, h);
        StillFree(db, refuse, info, h, h + Total(infos));
        NothingLeftOver(db + CharAttrs(info, h), refuse, infos[1..], h + Consumed(info));
      } else {
        AddedAtMost(db, refuse, info, h);
      }
    }
  }

  /** A characteristic that fails validation: the attribute database ends exactly as it began. */
  lemma ValidationRollsBack(db: Db, refuse: U16 -> bool, svc: U16, u: Uuid, infos: seq<Info>, start: U16)
    requires Counted(infos) && Avail(db, start, Size(infos)) && start != 0 && u.Valid() && !u.Uuid32?
    requires forall k: U16 :: start <= k < start + Size(infos) ==> !refuse(k)
    ensures var (r, now) := ServiceAdd(db, refuse, svc, Some(u), infos, start);
      && (r == Failed <==> exists info :: info in infos && !Acceptable(info))
      && (r == Failed ==> now == db)
  {
    hide Acceptable, AddChars, Counted, Cut, Att.PutUuid;
    var with := db[start := ServiceAttr(svc, u)];
    NothingLeftOver(with, refuse, infos, start + 1);
    LeftoverExactly(with, refuse, infos, start + 1);
    RollbackExactly(db, refuse, svc, Some(u), infos, start);
  }

  /** The options of every characteristic start with its UUID and set its properties once. */
  predicate WellFormed(opts: seq<Opt>) {
    && opts != [] && StartsChr(opts[0])
    && forall g :: g in Groups(opts) ==> PropsCount(g) == 1
  }

  lemma {:induction false} EqualTotals(infos: seq<Info>)
    requires forall i :: 0 <= i < |infos| ==> infos[i].numAttrs == Consumed(infos[i])
    ensures AllConsumed(infos) == Total(infos)
  {
    hide Consumed;
    if infos != [] {
      EqualTotals(infos[1..]);
    }
  }

  /** The size counted by parse_opts is then the number of handles the service takes. */
  lemma SizeIsConsumed(opts: seq<Opt>)
    requires WellFormed(opts)
    ensures var infos := Parse(BLANK, opts);
      && (forall info :: info in infos ==> info.numAttrs == Consumed(info))
      && Size(infos) == 1 + AllConsumed(infos)
  {
    hide Consumed, Acceptable;
    var infos := Parse(BLANK, opts);
    ParseIsGroups(BLANK, opts);
    forall i | 0 <= i < |infos|
      ensures infos[i].numAttrs == Consumed(infos[i])
    {
      CountIsConsumed(opts, i);
      assert Groups(opts)[i] in Groups(opts);
    }
    EqualTotals(infos);
  }

  lemma SameLength(opts: seq<Opt>)
    ensures |Parse(BLANK, opts)| == |Groups(opts)|
  {
    ParseIsGroups(BLANK, opts);
  }

  /** If the first characteristic is acceptable, its UUID is the first option. */
  lemma NamedFirst(opts: seq<Opt>)
    requires Acceptable(Parse(BLANK, opts)[0])
    ensures opts != [] && StartsChr(opts[0])
  {
    hide Acceptable;
    NamedUuid(Parse(BLANK, opts)[0]);
    ParseIsGroups(BLANK, opts);
    GroupUuids(opts);
    FoldCounts(BLANK, Groups(opts)[0]);
  }

  /**
   A whole registration from its options, no handle refused: with acceptable characteristics it
   succeeds, and takes exactly the handles counted, if and only if each sets as many notifying
   properties as its last one needs descriptors; otherwise the final assertion fails.
   */
  lemma OptionsRegister(db: Db, refuse: U16 -> bool, svc: U16, u: Uuid, opts: seq<Opt>, start: U16)
    requires var infos := Parse(BLANK, opts);
      && Avail(db, start, Size(infos)) && start != 0 && u.Valid() && !u.Uuid32?
      && (forall info :: info in infos ==> Acceptable(info))
      && forall k: U16 :: start <= k < start + Size(infos) ==> !refuse(k)
    ensures var infos := Parse(BLANK, opts);
      && Counted(infos)
      && var (r, now) := ServiceAdd(db, refuse, svc, Some(u), infos, start);
      && (r == Registered <==> forall g :: g in Groups(opts) ==> NotifiesOnce(g))
      && (r != Registered ==> r == AssertionFails)
      && (r == Registered ==> Grown(db, now, start, start + Size(infos)))
  {
    hide Acceptable, Consumed, NotifiesOnce, ServiceAdd, Grown, Parse, Groups;
    var infos := Parse(BLANK, opts);
    ParsedCounted(opts);
    RegistersExactly(db, refuse, svc, u, infos, start);
    TotalExact(infos);
    NamedFirst(opts);
    SameLength(opts);
    forall i | 0 <= i < |infos|
      ensures infos[i].numAttrs == Consumed(infos[i]) <==> NotifiesOnce(Groups(opts)[i])
    {
      CountIsConsumed(opts, i);
    }
    if r :| r in infos && r.numAttrs != Consumed(r) {
      var i :| 0 <= i < |infos| && infos[i] == r;
      assert Groups(opts)[i] in Groups(opts);
    } else {
      forall g | g in Groups(opts)
        ensures NotifiesOnce(g)
      {
        var i :| 0 <= i < |Groups(opts)| && Groups(opts)[i] == g;
        assert infos[i] in infos;
      }
    }
  }

  /** Options that set a characteristic's properties twice. */
  const TWICE: seq<Opt> := [ChrUuid16(0x2A00), Props(0x10), Props(0x10)]

  const TWICE_INFO: Info := Info(Some(Uuid16(0x2A00)), 0x10, NoProtection, NoProtection, [], 4, false, false)

  lemma TwiceApplied(a: Info, b: Info)
    requires a == BLANK.(uuid := Some(Uuid16(0x2A00)), numAttrs := 2) && b == a.(props := 0x10, numAttrs := 3)
    ensures Apply(BLANK, TWICE[0]) == a && Apply(a, TWICE[1]) == b && Apply(b, TWICE[2]) == TWICE_INFO
  {
  }

  lemma TwiceParsed()
    ensures Parse(BLANK, TWICE) == [TWICE_INFO]
  {
    var a := BLANK.(uuid := Some(Uuid16(0x2A00)), numAttrs := 2);
    var b := a.(props := 0x10, numAttrs := 3);
    TwiceApplied(a, b);
    assert TWICE[0..] == TWICE;
    assert Parse(TWICE_INFO, TWICE[3..]) == [TWICE_INFO] by {
      assert TWICE[3..] == [];
    }
    hide Apply, Parse;
    ParseStep([], BLANK, TWICE, 0);
    ParseStep([], a, TWICE, 1);
    ParseStep([], b, TWICE, 2);
  }

  /** They trip the assertion although everything was added. */
  lemma TwiceNotified()
    ensures var infos := Parse(BLANK, TWICE);
      && Counted(infos) && (forall info :: info in infos ==> Acceptable(info)) && Size(infos) == 5
      && ServiceAdd(map[], (k: U16) => false, 0x2800, Some(Uuid16(0x1800)), infos, 1).0 == AssertionFails
  {
    hide Parse;
    TwiceParsed();
    assert Total([TWICE_INFO]) == 4;
    RegistersExactly(map[], (k: U16) => false, 0x2800, Uuid16(0x1800), [TWICE_INFO], 1);
    assert TWICE_INFO in [TWICE_INFO];
  }
}
