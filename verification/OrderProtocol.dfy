/** The balance, display and control threads of client.c and webserver.c, as steps
    over the shared global_resource. Every lock operation, every read and every write
    of a field that several threads use is one step (an image takes one per byte), and
    the steps of the threads interleave freely.
    Scale samples, camera frames, classifier replies and database answers are inputs. */
module OrderProtocol {
  import opened Bytes
  import opened Scale

  datatype Option<T> = None | Some(value: T)

  datatype Thread = Balance | Display | Control

  // ------------------------------------------------------------------- locks

  // pthread_rwlock_t.
  datatype RwLock = RwLock(writer: Option<Thread>, readers: set<Thread>)

  datatype LockName = ImageLock | WeightLock | AcceptLock

  datatype Locks = Locks(image: RwLock, weight: RwLock, accept: RwLock) {
    function Get(n: LockName): RwLock {
      match n
      case ImageLock => image
      case WeightLock => weight
      case AcceptLock => accept
    }

    function Put(n: LockName, l: RwLock): (r: Locks)
      ensures forall m :: r.Get(m) == if m == n then l else Get(m)
    {
      match n
      case ImageLock => this.(image := l)
      case WeightLock => this.(weight := l)
      case AcceptLock => this.(accept := l)
    }
  }

  const OPEN: RwLock := RwLock(None, {})

  // A lock a thread holds or asks for.
  datatype Claim = NoLock | Claim(name: LockName, write: bool)

  predicate CanLock(l: RwLock, write: bool) {
    l.writer.None? && (write ==> l.readers == {})
  }

  function Acquire(l: RwLock, t: Thread, write: bool): RwLock {
    if write then l.(writer := Some(t)) else l.(readers := l.readers + {t})
  }

  function Release(l: RwLock, t: Thread, write: bool): RwLock {
    if write then l.(writer := None) else l.(readers := l.readers - {t})
  }

  // ------------------------------------------------------------------ states

  // Program points. Names in L ask for a lock, names in U give it back.
  datatype BalancePc =
    | BReset | BLoop | BRead | BLSample | BSetWeight | BUSample | BTest
    | BLZero | BZeroClass | BZeroPrice | BZeroWeight | BUZero
    | BLFlag | BGetFlag | BUFlag | BBranch
    | BLClear | BClear | BUClear | BGetWeight | BGetPrice | BGetClass | BCheck | BInsert
    | BLOrder | BOrderClass | BUOrder
    | BPack | BSendHead | BLImage | BStart | BScale | BUImage | BSendImage | BReceive
    | BLOffline | BOffline | BUOffline
    | BLReply | BSetClass | BUReply | BQuery | BLPrice | BSetPrice | BUPrice

  datatype DisplayPc =
    | DIdle | DLImage | DCapture | DCopy | DUImage | DEncode | DJoin
    | DLSnapshot | DGetWeight | DGetPrice | DGetClass | DUSnapshot | DName | DShow | DShowWeight | DShowPrice | DSend

  datatype ControlPc = CNone | CRead | CLFlag | CSet | CUFlag | CDone

  // The fields of global_resource that threads share.
  datatype Shared = Shared(flag: bool, classId: nat, price: real, weight: real, rgb: seq<byte>, resize: seq<byte>)

  // Locals of the balance thread: samples taken in this pass, the protocol packet's
  // type, the queried price, how many bytes are scaled and from which frame, besides
  // those named in the source.
  datatype Balancing = Balancing(pc: BalancePc, delay: nat, taken: nat, tmp: real, sawFlag: bool, weight: real,
                                 price: real, classId: nat, packType: nat, queried: real, k: nat, scaledFrom: nat)

  // Locals of the display thread: the captured frame, how much of it is copied, the
  // snapshot of the order data, whose weight and price are declared int, and the
  // message that is being built.
  datatype Displaying = Displaying(pc: DisplayPc, frame: seq<byte>, i: nat, weight: int, price: int, classId: nat,
                                   msg: Message)

  // What is sent to the browser: the class of the snapshot, and the weight and price
  // that are read again after the lock was given back. The last fields say after how
  // many states of the order data each was read.
  datatype Message = Message(classId: nat, weight: real, price: real, classAt: nat, weightAt: nat, priceAt: nat)

  // A state of the order data: heard is the number of replies so far, priced that of
  // the reply whose price was stored last, 0 at the start and after a reset.
  datatype OrderData = OrderData(classId: nat, price: real, weight: real, priced: nat, heard: nat)

  // The conversion of a float to an int.
  function Trunc(x: real): int {
    if x < 0.0 then -(-x).Floor else x.Floor
  }

  // A row of the orders table; reply and sample say after how many classifier replies
  // and weights stored it was inserted.
  datatype Order = Order(classId: nat, weight: real, price: real, reply: nat, sample: nat)

  // Image bytes written to the classifier, and the frame they were scaled from.
  datatype Sent = Sent(bytes: seq<byte>, frame: nat)

  // Complete frames, weights stored and states of the order data (the initial ones
  // first), classifier replies, orders, images and messages sent, and what became of
  // the accept requests.
  datatype History = History(frames: seq<seq<byte>>, samples: seq<real>, data: seq<OrderData>, replies: seq<nat>,
                             orders: seq<Order>, sent: seq<Sent>, messages: seq<Message>, received: nat, dropped: nat, coalesced: nat)

  // live: the process has not exited.
  datatype State = State(live: bool, g: Shared, locks: Locks, b: Balancing, d: Displaying, ctl: ControlPc, h: History)

  // table is the price of each vegetable id; the rest are image sizes.
  datatype Config = Config(table: map<nat, real>, ow: nat, oh: nat, nw: nat, nh: nat) {
    predicate Valid() {
      Sizes(ow, oh, nw, nh) && Fits(ow, oh, nw, nh)
    }
  }

  const NO_CLASS: nat := 255
  const MIN_WEIGHT: real := 0.005

  // What the world does in one step.
  datatype Input =
    | Ok | Fault
    | Sample(kg: real) | Again | NoSample
    | Reply(n: nat, cls: nat) | Wrote(n: nat)
    | Camera(img: seq<byte>)
    | Request | Gone | Connect
    | PriceFirst

  function Init(rgb: seq<byte>, resize: seq<byte>, weight: real): State {
    State(true, Shared(false, NO_CLASS, 0.0, weight, rgb, resize), Locks(OPEN, OPEN, OPEN),
          Balancing(BReset, 0, 0, 0.0, false, 0.0, 0.0, 0, 0, 0.0, 0, 0),
          Displaying(DIdle, [], 0, 0, 0, 0, Message(0, 0.0, 0.0, 0, 0, 0)), CNone,
          History([rgb], [weight], [OrderData(NO_CLASS, 0.0, weight, 0, 0)], [], [], [], [], 0, 0, 0))
  }

  // ------------------------------------------------- locks by program point

  function BalanceHolds(pc: BalancePc): Claim {
    match pc
    case BSetWeight | BUSample | BZeroClass | BZeroPrice | BZeroWeight | BUZero | BOrderClass | BUOrder
       | BOffline | BUOffline | BSetClass | BUReply | BSetPrice | BUPrice => Claim(WeightLock, true)
    case BGetFlag | BUFlag => Claim(AcceptLock, false)
    case BClear | BUClear => Claim(AcceptLock, true)
    case BStart | BScale | BUImage => Claim(ImageLock, false)
    case _ => NoLock
  }

  function BalanceAsks(pc: BalancePc): Claim {
    match pc
    case BLSample | BLZero | BLOrder | BLOffline | BLReply | BLPrice => Claim(WeightLock, true)
    case BLFlag => Claim(AcceptLock, false)
    case BLClear => Claim(AcceptLock, true)
    case BLImage => Claim(ImageLock, false)
    case _ => NoLock
  }

  predicate BalanceGives(pc: BalancePc) {
    match pc
    case BUSample | BUZero | BUFlag | BUClear | BUOrder | BUImage | BUOffline | BUReply | BUPrice => true
    case _ => false
  }

  // The point after a lock or unlock call.
  function BalanceAfter(pc: BalancePc): BalancePc {
    match pc
    case BLSample => BSetWeight
    case BUSample => BLoop
    case BLZero => BZeroClass
    case BUZero => BReset
    case BLFlag => BGetFlag
    case BUFlag => BBranch
    case BLClear => BClear
    case BUClear => BGetWeight
    case BLOrder => BOrderClass
    case BUOrder => BPack
    case BLImage => BStart
    case BUImage => BSendImage
    case BLOffline => BOffline
    case BUOffline => BReset
    case BLReply => BSetClass
    case BUReply => BQuery
    case BLPrice => BSetPrice
    case BUPrice => BReset
    case _ => pc
  }

  function DisplayHolds(pc: DisplayPc): Claim {
    match pc
    case DCapture | DCopy | DUImage => Claim(ImageLock, true)
    case DGetWeight | DGetPrice | DGetClass | DUSnapshot => Claim(WeightLock, false)
    case _ => NoLock
  }

  function DisplayAsks(pc: DisplayPc): Claim {
    match pc
    case DLImage => Claim(ImageLock, true)
    case DLSnapshot => Claim(WeightLock, false)
    case _ => NoLock
  }

  predicate DisplayGives(pc: DisplayPc) {
    pc == DUImage || pc == DUSnapshot
  }

  function DisplayAfter(pc: DisplayPc): DisplayPc {
    match pc
    case DLImage => DCapture
    case DUImage => DEncode
    case DLSnapshot => DGetWeight
    case DUSnapshot => DName
    case _ => pc
  }

  function Holds(s: State, t: Thread): Claim {
    match t
    case Balance => BalanceHolds(s.b.pc)
    case Display => DisplayHolds(s.d.pc)
    case Control => if s.ctl == CSet || s.ctl == CUFlag then Claim(AcceptLock, true) else NoLock
  }

  function Asks(s: State, t: Thread): Claim {
    match t
    case Balance => BalanceAsks(s.b.pc)
    case Display => DisplayAsks(s.d.pc)
    case Control => if s.ctl == CLFlag then Claim(AcceptLock, true) else NoLock
  }

  predicate Gives(s: State, t: Thread) {
    match t
    case Balance => BalanceGives(s.b.pc)
    case Display => DisplayGives(s.d.pc)
    case Control => s.ctl == CUFlag
  }

  // The thread moves past its lock or unlock call.
  function Past(s: State, t: Thread): State {
    match t
    case Balance => s.(b := s.b.(pc := BalanceAfter(s.b.pc)))
    case Display => s.(d := s.d.(pc := DisplayAfter(s.d.pc)))
    case Control => s.(ctl := if s.ctl == CLFlag then CSet else CRead)
  }

  // ------------------------------------------------------------------- steps

  // exit(-1), or a crash, ends all threads.
  function Exit(s: State): Option<State> {
    Some(s.(live := false))
  }

  // Which reply the price in force is for.
  function Priced(h: History): nat {
    if h.data == [] then 0 else h.data[|h.data| - 1].priced
  }

  // The order data after a store to one of its fields.
  function Store(h: History, g: Shared, priced: nat): History {
    h.(data := h.data + [OrderData(g.classId, g.price, g.weight, priced, |h.replies|)])
  }

  // Class, price and weight are stored one at a time.
  function SetClass(s: State, pc: BalancePc, c: nat): State {
    var g := s.g.(classId := c);
    s.(b := To(s.b, pc), g := g, h := Store(s.h, g, Priced(s.h)))
  }

  function SetPrice(s: State, pc: BalancePc, price: real, priced: nat): State {
    var g := s.g.(price := price);
    s.(b := To(s.b, pc), g := g, h := Store(s.h, g, priced))
  }

  function SetWeight(s: State, pc: BalancePc, kg: real): State {
    var g := s.g.(weight := kg);
    s.(b := To(s.b, pc), g := g, h := Store(s.h, g, Priced(s.h)))
  }

  function To(b: Balancing, pc: BalancePc): Balancing {
    b.(pc := pc)
  }

  // The balance thread up to the point where it sends an image.
  function WeighAct(s: State, x: Input): Option<State> {
    var b, g := s.b, s.g;
    match b.pc
    case BReset => Some(s.(b := b.(pc := BLoop, delay := 10, taken := 0)))
    case BLoop => Some(s.(b := if b.delay == 0 then To(b, BTest) else b.(pc := BRead, delay := b.delay - 1)))
    case BRead =>
      (match x
       case Again => Some(s.(b := b.(pc := BLoop, delay := b.delay + 1)))
       case NoSample => Some(s.(b := To(b, BTest)))
       case Sample(kg) => Some(s.(b := b.(pc := BLSample, tmp := kg)))
       case Fault => Exit(s)
       case _ => None)
    case BSetWeight =>
      var u := SetWeight(s, BUSample, b.tmp);
      Some(u.(b := u.b.(taken := b.taken + 1), h := u.h.(samples := s.h.samples + [b.tmp])))
    case BTest => Some(s.(b := To(b, if g.weight <= MIN_WEIGHT then BLZero else BLFlag)))
    case BZeroClass => Some(SetClass(s, BZeroPrice, NO_CLASS))
    case BZeroPrice => Some(SetPrice(s, BZeroWeight, 0.0, 0))
    case BZeroWeight => Some(SetWeight(s, BUZero, 0.0))
    case _ => None
  }

  function OrderAct(s: State, x: Input): Option<State> {
    var b, g := s.b, s.g;
    match b.pc
    case BGetFlag => Some(s.(b := b.(pc := BUFlag, sawFlag := g.flag)))
    case BBranch => Some(s.(b := To(b, if b.sawFlag then BLClear else BPack)))
    case BClear => Some(s.(b := To(b, BUClear), g := g.(flag := false)))
    case BGetWeight => Some(s.(b := b.(pc := BGetPrice, weight := g.weight)))
    case BGetPrice => Some(s.(b := b.(pc := BGetClass, price := g.price)))
    case BGetClass => Some(s.(b := b.(pc := BCheck, classId := g.classId)))
    case BCheck =>
      Some(if b.classId == NO_CLASS then s.(b := To(b, BReset), h := s.h.(dropped := s.h.dropped + 1))
           else s.(b := To(b, BInsert)))
    case BInsert =>
      (match x
       case Ok =>
         var order := Order(b.classId, b.weight, b.price, |s.h.replies|, |s.h.samples|);
         Some(s.(b := To(b, BLOrder), h := s.h.(orders := s.h.orders + [order])))
       case Fault => Exit(s)
       case _ => None)
    case BOrderClass => Some(SetClass(s, BUOrder, NO_CLASS))
    case _ => None
  }

  // ... and from there: the image is scaled and sent, the reply is stored.
  function ImageAct(cfg: Config, s: State, x: Input): Option<State>
    requires cfg.Valid()
  {
    var b, g := s.b, s.g;
    match b.pc
    case BPack => Some(s.(b := b.(pc := BSendHead, packType := 1)))
    case BSendHead =>
      (match x
       case Ok => Some(s.(b := To(b, BLImage)))
       case Fault => Exit(s)
       case _ => None)
    case BStart => if s.h.frames == [] then None else Some(s.(b := b.(pc := BScale, k := 0, scaledFrom := |s.h.frames| - 1)))
    case BScale =>
      if b.k < |g.resize| then
        var from := Source(b.k, cfg.ow, cfg.oh, cfg.nw, cfg.nh);
        if from < |g.rgb| then Some(s.(b := b.(k := b.k + 1), g := g.(resize := g.resize[b.k := g.rgb[from]]))) else None
      else Some(s.(b := To(b, BUImage)))
    case BSendImage =>
      // a short write is not noticed
      (match x
       case Wrote(n) =>
         if n <= |g.resize| then
           Some(s.(b := To(b, BReceive), h := s.h.(sent := s.h.sent + [Sent(g.resize[..n], b.scaledFrom)])))
         else None
       case Fault => Exit(s)
       case _ => None)
    case _ => None
  }

  function ReplyAct(cfg: Config, s: State, x: Input): Option<State> {
    var b, g := s.b, s.g;
    match b.pc
    case BReceive =>
      // a reply of one byte leaves the type that was sent
      (match x
       case Reply(n, cls) =>
         if n == 0 then Some(s.(b := To(b, BLOffline)))
         else Some(s.(b := b.(pc := BLReply, packType := if n >= 2 then cls % 256 else b.packType)))
       case Fault => Exit(s)
       case _ => None)
    case BOffline => Some(s.(b := b.(pc := BUOffline, packType := 255)))
    case BSetClass =>
      Some(SetClass(s.(h := s.h.(replies := s.h.replies + [b.packType])), BUReply, b.packType))
    case BQuery =>
      // an id without a row makes the thread dereference a null row
      (match x
       case Ok => if g.classId in cfg.table then Some(s.(b := b.(pc := BLPrice, queried := cfg.table[g.classId]))) else Exit(s)
       case Fault => Exit(s)
       case _ => None)
    case BSetPrice => Some(SetPrice(s, BUPrice, b.queried, |s.h.replies|))
    case _ => None
  }

  datatype Part = Weigh | Deal | Picture | Answer

  function PartOf(pc: BalancePc): Part {
    match pc
    case BReset | BLoop | BRead | BLSample | BSetWeight | BUSample | BTest
       | BLZero | BZeroClass | BZeroPrice | BZeroWeight | BUZero => Weigh
    case BPack | BSendHead | BLImage | BStart | BScale | BUImage | BSendImage => Picture
    case BReceive | BLOffline | BOffline | BUOffline | BLReply | BSetClass | BUReply | BQuery
       | BLPrice | BSetPrice | BUPrice => Answer
    case _ => Deal
  }

  function BalanceAct(cfg: Config, s: State, x: Input): Option<State>
    requires cfg.Valid()
  {
    match PartOf(s.b.pc)
    case Weigh => WeighAct(s, x)
    case Deal => OrderAct(s, x)
    case Picture => ImageAct(cfg, s, x)
    case Answer => ReplyAct(cfg, s, x)
  }

  // The message is complete with its second re-read.
  function ShowWeight(s: State): State {
    s.(d := s.d.(msg := s.d.msg.(weight := s.g.weight, weightAt := |s.h.data|)))
  }

  function ShowPrice(s: State): State {
    s.(d := s.d.(msg := s.d.msg.(price := s.g.price, priceAt := |s.h.data|)))
  }

  function Shown(s: State): State {
    s.(d := s.d.(pc := DSend), h := s.h.(messages := s.h.messages + [s.d.msg]))
  }

  function DisplayAct(cfg: Config, s: State, x: Input): Option<State> {
    match s.d.pc
    case DIdle | DCapture | DCopy | DEncode | DJoin => CaptureAct(s, x)
    case _ => ShowAct(cfg, s, x)
  }

  // Capturing and encoding a frame.
  function CaptureAct(s: State, x: Input): Option<State> {
    var d, g := s.d, s.g;
    match d.pc
    case DIdle => if x == Connect then Some(s.(d := d.(pc := DLImage), ctl := CRead)) else None
    case DCapture =>
      (match x
       case Camera(img) => if |img| == |g.rgb| then Some(s.(d := d.(pc := DCopy, frame := img, i := 0))) else None
       case Fault => Exit(s)
       case _ => None)
    case DCopy =>
      if d.i < |g.rgb| && d.i < |d.frame| then
        Some(s.(d := d.(i := d.i + 1), g := g.(rgb := g.rgb[d.i := d.frame[d.i]])))
      else Some(s.(d := d.(pc := DUImage), h := s.h.(frames := s.h.frames + [d.frame])))
    case DEncode => Some(s.(d := d.(pc := if x == Fault then DJoin else DLSnapshot)))
    case DJoin => if s.ctl == CDone then Some(s.(d := d.(pc := DIdle), ctl := CNone)) else None
    case _ => None
  }

  // The snapshot, and the message built from it.
  function ShowAct(cfg: Config, s: State, x: Input): Option<State> {
    var d, g := s.d, s.g;
    match d.pc
    case DGetWeight => Some(s.(d := d.(pc := DGetPrice, weight := Trunc(g.weight))))
    case DGetPrice => Some(s.(d := d.(pc := DGetClass, price := Trunc(g.price))))
    case DGetClass =>
      Some(s.(d := d.(pc := DUSnapshot, classId := g.classId, msg := d.msg.(classId := g.classId, classAt := |s.h.data|))))
    case DName =>
      // as in the balance thread, an id without a row ends in a crash
      if d.classId != NO_CLASS && (x == Fault || d.classId !in cfg.table) then Exit(s) else Some(s.(d := d.(pc := DShow)))
    case DShow =>
      // C leaves the order of the two reads open
      Some(if x == PriceFirst then var u := ShowPrice(s); u.(d := u.d.(pc := DShowWeight))
           else var u := ShowWeight(s); u.(d := u.d.(pc := DShowPrice)))
    case DShowWeight => Some(Shown(ShowWeight(s)))
    case DShowPrice => Some(Shown(ShowPrice(s)))
    case DSend => if x == Fault then Exit(s) else Some(s.(d := d.(pc := DLImage)))
    case _ => None
  }

  function ControlAct(s: State, x: Input): Option<State> {
    match s.ctl
    case CRead =>
      (match x
       case Request => Some(s.(ctl := CLFlag, h := s.h.(received := s.h.received + 1)))
       case Gone => Some(s.(ctl := CDone))
       case Fault => Exit(s)
       case _ => None)
    case CSet =>
      Some(s.(ctl := CUFlag, g := s.g.(flag := true),
              h := s.h.(coalesced := s.h.coalesced + if s.g.flag then 1 else 0)))
    case _ => None
  }

  // A step without a lock call.
  function Act(cfg: Config, s: State, t: Thread, x: Input): Option<State>
    requires cfg.Valid()
  {
    match t
    case Balance => BalanceAct(cfg, s, x)
    case Display => DisplayAct(cfg, s, x)
    case Control => ControlAct(s, x)
  }

  // None when thread t cannot take a step with input x. rdlock and wrlock block;
  // unlock never does.
  function Step(cfg: Config, s: State, t: Thread, x: Input): Option<State>
    requires cfg.Valid()
  {
    var a, h := Asks(s, t), Holds(s, t);
    if !s.live then None
    else if a.Claim? then
      if CanLock(s.locks.Get(a.name), a.write)
      then Some(Past(s, t).(locks := s.locks.Put(a.name, Acquire(s.locks.Get(a.name), t, a.write))))
      else None
    else if Gives(s, t) && h.Claim? then
      Some(Past(s, t).(locks := s.locks.Put(h.name, Release(s.locks.Get(h.name), t, h.write))))
    else Act(cfg, s, t, x)
  }

  datatype Event = Event(thread: Thread, input: Input)

  // A schedule; events that are not possible are passed over.
  function Run(cfg: Config, s: State, events: seq<Event>): State
    requires cfg.Valid()
    decreases |events|
  {
    if events == [] then s else
      match Step(cfg, s, events[0].thread, events[0].input)
      case None => Run(cfg, s, events[1..])
      case Some(u) => Run(cfg, u, events[1..])
  }
}
