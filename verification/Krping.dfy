/** The option loop and role check of krping_doit (bak/krping.c:969-1052). */
module Krping {
  import opened Getopt
  import opened Options

  /** krping_opts, in order. */
  const KRPING_OPTS: seq<Opt> := [
    Takes("count", 'C'), Takes("size", 'S'), Text("addr", 'a'), Text("addr6", 'A'), Takes("port", 'p'),
    Flag("verbose", 'v'), Flag("validate", 'V'), Flag("server", 's'), Flag("client", 'c'), Flag("server_inv", 'I'),
    Flag("wlat", 'l'), Flag("rlat", 'L'), Flag("bw", 'B'), Flag("duplex", 'd'), Takes("tos", 't'),
    Takes("txdepth", 'T'), Flag("poll", 'P'), Flag("local_dma_lkey", 'Z'), Flag("read_inv", 'R'), Flag("fr", 'f')
  ]

  function Takes(name: string, val: char): Opt { Opt(name, false, true, false, val as int) }

  function Text(name: string, val: char): Opt { Opt(name, false, false, true, val as int) }

  function Flag(name: string, val: char): Opt { Opt(name, true, false, false, val as int) }

  const MAX_SIZE: int := 128 * 1024

  /** The assignment of an unsigned long to an int: the one value in range that is congruent to it. */
  function ToInt(v: nat): (r: int)
    ensures -0x8000_0000 <= r < 0x8000_0000
    ensures (v - r) % 0x1_0000_0000 == 0
  {
    var m := v % 0x1_0000_0000;
    if m < 0x8000_0000 then m else m - 0x1_0000_0000
  }

  /** The fields of struct krping_cb that options set, and the loop's `ret`; `port` is in host order. */
  datatype Cb = Cb(server: int, size: int, count: int, port: nat, verbose: nat, addr: Option<string>, ret: int)

  const FRESH: Cb := Cb(-1, 64, 0, 0, 0, None, 0)

  /** The switch. */
  function Take(cb: Cb, r: Result): Cb {
    if r.op == 'a' as int then cb.(addr := r.arg)
    else if r.op == 'p' as int then cb.(port := Num(r) % 0x1_0000)
    else if r.op == 'c' as int then cb.(server := 0)
    else if r.op == 'S' as int then
      var size := ToInt(Num(r));
      cb.(size := size, ret := if size < 1 || size > MAX_SIZE then EINVAL else cb.ret)
    else if r.op == 'C' as int then
      var count := ToInt(Num(r));
      cb.(count := count, ret := if count < 0 then EINVAL else cb.ret)
    else if r.op == 'v' as int then cb.(verbose := cb.verbose + 1)
    else cb.(ret := -EINVAL)
  }

  function Num(r: Result): nat {
    if r.value.Some? then r.value.value else 0
  }

  function TakeAll(cb: Cb, rs: seq<Result>): Cb
    decreases |rs|
  {
    if rs == [] then cb else TakeAll(Take(cb, rs[0]), rs[1..])
  }

  /** The value krping_doit is heading for when it reaches rdma_create_id, or returns before. */
  function Verdict(cb: Cb): int {
    if cb.ret != 0 then cb.ret else if cb.server == -1 then -EINVAL else 0
  }

  // ---------------------------------------------------------------- exactly what is accepted

  /** An acceptable piece, said without the table: a bare role or verbose flag, an address, or a number
      that converts to its last character and, truncated to int, is in range. */
  predicate AcceptableParts(name: string, arg: Option<string>, num: Strtoul) {
    match arg
    case None => name == "client" || name == "verbose"
    case Some(a) =>
      || name == "addr"
      || (num(a).used == |a| &&
          (|| name == "port"
           || (name == "size" && 1 <= ToInt(num(a).value) <= MAX_SIZE)
           || (name == "count" && 0 <= ToInt(num(a).value))))
  }

  predicate Acceptable(piece: string, num: Strtoul) {
    var (name, arg) := Cut(piece, '=');
    AcceptableParts(name, arg, num)
  }

  lemma SmallToInt(v: nat)
    ensures v < 0x8000_0000 ==> ToInt(v) == v
  {
  }

  /** Of the numbers that fit an int: a size is acceptable from 1 to 128 KiB, a count and a port always. */
  lemma SmallNumbers(a: string, num: Strtoul)
    requires num(a).used == |a| && num(a).value < 0x8000_0000
    ensures Acceptable("size=" + a, num) <==> 1 <= num(a).value <= 131072
    ensures Acceptable("count=" + a, num)
    ensures Acceptable("port=" + a, num)
  {
    SmallToInt(num(a).value);
    CutNames(a);
    hide Cut, ToInt;
  }

  lemma CutNames(a: string)
    ensures Cut("size=" + a, '=') == ("size", Some(a))
    ensures Cut("count=" + a, '=') == ("count", Some(a))
    ensures Cut("port=" + a, '=') == ("port", Some(a))
  {
    CutJoined("size", a, '=');
    CutJoined("count", a, '=');
    CutJoined("port", a, '=');
    assert "size" + ['='] + a == "size=" + a;
    assert "count" + ['='] + a == "count=" + a;
    assert "port" + ['='] + a == "port=" + a;
    hide Cut;
  }

  /** Does this piece leave the error flag alone? */
  predicate Harmless(r: Result) {
    Take(FRESH, r).ret == 0
  }

  /** Once set, the error flag is never cleared, and it is set by exactly the harmful pieces. */
  lemma {:induction false} StickyError(cb: Cb, rs: seq<Result>)
    ensures TakeAll(cb, rs).ret == 0 <==> cb.ret == 0 && forall i :: 0 <= i < |rs| ==> Harmless(rs[i])
    decreases |rs|
  {
    if rs != [] {
      StickyError(Take(cb, rs[0]), rs[1..]);
      assert Take(cb, rs[0]).ret == 0 <==> cb.ret == 0 && Harmless(rs[0]);
    }
  }

  lemma {:induction false} RoleSet(cb: Cb, rs: seq<Result>)
    requires cb.server == -1 || cb.server == 0
    ensures TakeAll(cb, rs).server == 0 <==> cb.server == 0 || exists i :: 0 <= i < |rs| && rs[i].op == 'c' as int
    ensures TakeAll(cb, rs).server == -1 || TakeAll(cb, rs).server == 0
    decreases |rs|
  {
    if rs != [] {
      RoleSet(Take(cb, rs[0]), rs[1..]);
      assert forall i :: 0 < i < |rs| ==> rs[i] == rs[1..][i - 1];
      if i :| 0 <= i < |rs| && rs[i].op == 'c' as int {
        if i > 0 {
          assert rs[1..][i - 1].op == 'c' as int;
        }
      }
    }
  }

  /** The row a name finds. */
  lemma FindAt(table: seq<Opt>, name: string, k: nat)
    requires k < |table| && table[k].name == name && forall j :: 0 <= j < k ==> table[j].name != name
    ensures Find(table, name) == Some(table[k])
  {
    if k > 0 {
      FindAt(table[1..], name, k - 1);
    }
  }

  lemma RowCount()
    ensures Find(KRPING_OPTS, "count") == Some(Takes("count", 'C'))
  {
    hide Find;
    FindAt(KRPING_OPTS, "count", 0);
  }

  lemma RowSize()
    ensures Find(KRPING_OPTS, "size") == Some(Takes("size", 'S'))
  {
    hide Find;
    FindAt(KRPING_OPTS, "size", 1);
  }

  lemma RowAddr()
    ensures Find(KRPING_OPTS, "addr") == Some(Text("addr", 'a'))
  {
    hide Find;
    FindAt(KRPING_OPTS, "addr", 2);
  }

  lemma RowPort()
    ensures Find(KRPING_OPTS, "port") == Some(Takes("port", 'p'))
  {
    hide Find;
    FindAt(KRPING_OPTS, "port", 4);
  }

  lemma RowVerbose()
    ensures Find(KRPING_OPTS, "verbose") == Some(Flag("verbose", 'v'))
  {
    hide Find;
    FindAt(KRPING_OPTS, "verbose", 5);
  }

  lemma RowClient()
    ensures Find(KRPING_OPTS, "client") == Some(Flag("client", 'c'))
  {
    hide Find;
    FindAt(KRPING_OPTS, "client", 8);
  }

  /** The values the switch knows. */
  predicate Known(val: int) {
    || val == 'a' as int || val == 'p' as int || val == 'c' as int
    || val == 'S' as int || val == 'C' as int || val == 'v' as int
  }

  /** Only those six rows have them. */
  lemma KnownRows(k: nat)
    requires k < |KRPING_OPTS|
    ensures var o := KRPING_OPTS[k];
      && o.val > 0
      && (Known(o.val) ==> k == 0 || k == 1 || k == 2 || k == 4 || k == 5 || k == 8)
  {
  }

  lemma SixNames()
    ensures KRPING_OPTS[0].name == "count" && KRPING_OPTS[1].name == "size" && KRPING_OPTS[2].name == "addr"
    ensures KRPING_OPTS[4].name == "port" && KRPING_OPTS[5].name == "verbose" && KRPING_OPTS[8].name == "client"
  {
  }

  predicate SixName(name: string) {
    || name == "count" || name == "size" || name == "addr" || name == "port" || name == "verbose" || name == "client"
  }

  /** Any other name finds nothing, or a row the switch does not know. */
  lemma OtherRow(name: string)
    requires !SixName(name)
    ensures var f := Find(KRPING_OPTS, name); f.None? || !Known(f.value.val)
  {
    hide Find, SixName;
    var f := Find(KRPING_OPTS, name);
    if f.Some? {
      var k :| 0 <= k < |KRPING_OPTS| && KRPING_OPTS[k] == f.value;
      KnownRows(k);
      NotSix(k);
    }
  }

  lemma NotSix(k: nat)
    requires k < |KRPING_OPTS| && !SixName(KRPING_OPTS[k].name)
    ensures !(k == 0 || k == 1 || k == 2 || k == 4 || k == 5 || k == 8)
  {
    SixNames();
  }

  lemma UnknownHarms(r: Result)
    ensures !Known(r.op) ==> !Harmless(r) && r.op != 'c' as int
  {
  }

  /** What the switch makes of each of the six rows. */
  lemma NumberRowsDecide(arg: Option<string>, num: Strtoul)
    ensures Harmless(Decide(Takes("count", 'C'), arg, num)) <==> AcceptableParts("count", arg, num)
    ensures Harmless(Decide(Takes("size", 'S'), arg, num)) <==> AcceptableParts("size", arg, num)
    ensures Harmless(Decide(Takes("port", 'p'), arg, num)) <==> AcceptableParts("port", arg, num)
  {
    hide ToInt;
  }

  lemma OtherRowsDecide(arg: Option<string>, num: Strtoul)
    ensures Harmless(Decide(Text("addr", 'a'), arg, num)) <==> AcceptableParts("addr", arg, num)
    ensures Harmless(Decide(Flag("verbose", 'v'), arg, num)) <==> AcceptableParts("verbose", arg, num)
    ensures Harmless(Decide(Flag("client", 'c'), arg, num)) <==> AcceptableParts("client", arg, num)
  {
    hide ToInt;
  }

  lemma OthersUnacceptable(name: string, arg: Option<string>, num: Strtoul)
    requires !SixName(name)
    ensures !AcceptableParts(name, arg, num)
  {
  }

  lemma RoleRow(o: Opt, arg: Option<string>, num: Strtoul)
    ensures Decide(o, arg, num).op == o.val || Decide(o, arg, num).op < 0
    ensures Decide(Flag("client", 'c'), arg, num).op == 'c' as int <==> arg.None?
  {
  }

  lemma PartsHarmless(name: string, arg: Option<string>, num: Strtoul)
    requires SixName(name)
    ensures var f := Find(KRPING_OPTS, name);
      && f.Some? && (Harmless(Decide(f.value, arg, num)) <==> AcceptableParts(name, arg, num))
      && (Decide(f.value, arg, num).op == 'c' as int <==> name == "client" && arg.None?)
  {
    hide Find, KRPING_OPTS, Harmless, AcceptableParts, Decide;
    NumberRowsDecide(arg, num);
    OtherRowsDecide(arg, num);
    RowCount();
    RowSize();
    RowAddr();
    RowPort();
    RowVerbose();
    RowClient();
    RoleRow(Find(KRPING_OPTS, name).value, arg, num);
  }

  lemma OtherParts(name: string, arg: Option<string>, num: Strtoul)
    requires !SixName(name)
    ensures var f := Find(KRPING_OPTS, name);
      var r := if f.None? then Result(-EOPNOTSUPP, name, arg, None) else Decide(f.value, arg, num);
      !Harmless(r) && !Known(r.op)
  {
    hide Find, KRPING_OPTS, Harmless, SixName, Decide;
    var f := Find(KRPING_OPTS, name);
    OtherRow(name);
    if f.Some? {
      RoleRow(f.value, arg, num);
      UnknownHarms(Decide(f.value, arg, num));
    } else {
      UnknownHarms(Result(-EOPNOTSUPP, name, arg, None));
    }
  }

  /** A piece is harmless exactly when it is acceptable, and names the role exactly when it is "client". */
  lemma HarmlessIsAcceptable(piece: string, num: Strtoul)
    ensures Harmless(Interpret(piece, KRPING_OPTS, num)) <==> Acceptable(piece, num)
    ensures Interpret(piece, KRPING_OPTS, num).op == 'c' as int <==> piece == "client"
  {
    hide Find, Index, Cut, KRPING_OPTS, Harmless, AcceptableParts, SixName, Decide;
    var (name, arg) := Cut(piece, '=');
    BareName(piece);
    ClientIsOne(name);
    if SixName(name) {
      PartsHarmless(name, arg, num);
    } else {
      OtherParts(name, arg, num);
      OthersUnacceptable(name, arg, num);
    }
  }

  lemma ClientIsOne(name: string)
    ensures name == "client" ==> SixName(name)
  {
  }

  lemma BareName(piece: string)
    ensures Cut(piece, '=').1.None? ==> Cut(piece, '=').0 == piece
    ensures Cut("client", '=') == ("client", None)
    ensures Cut("verbose", '=') == ("verbose", None)
  {
    CutJoined("client", "", '=');
    CutJoined("verbose", "", '=');
  }

  lemma TableHasNoZero()
    ensures NoZero(KRPING_OPTS)
  {
    forall k | 0 <= k < |KRPING_OPTS|
      ensures KRPING_OPTS[k].val != 0
    {
      KnownRows(k);
    }
  }

  lemma {:induction false} NonEmptyMembers(t: seq<string>, piece: string)
    ensures piece in NonEmpty(t) <==> piece in t && piece != ""
  {
    if t != [] {
      NonEmptyMembers(t[1..], piece);
      assert t == [t[0]] + t[1..];
    }
  }

  lemma {:induction false} InRange(cb: Cb, rs: seq<Result>)
    requires cb.ret == 0 ==> 1 <= cb.size <= MAX_SIZE && 0 <= cb.count
    ensures var d := TakeAll(cb, rs); d.ret == 0 ==> 1 <= d.size <= MAX_SIZE && 0 <= d.count
    decreases |rs|
  {
    if rs != [] {
      InRange(Take(cb, rs[0]), rs[1..]);
    }
  }

  /** What the whole loop makes of a command. */
  function Parse(cmd: string, num: Strtoul): Cb {
    TakeAll(FRESH, All(Some(cmd), KRPING_OPTS, num))
  }

  /** krping_doit gets past parsing and the role check exactly when every nonempty piece of the command
      is acceptable and one of them is "client"; the sizes it then goes on with are in range. */
  lemma DoitAccepts(cmd: string, num: Strtoul)
    ensures Verdict(Parse(cmd, num)) == 0 <==>
      "client" in Split(cmd) && forall piece :: piece in Split(cmd) && piece != "" ==> Acceptable(piece, num)
    ensures var cb := Parse(cmd, num);
      Verdict(cb) == 0 ==> 1 <= cb.size <= 131072 && 0 <= cb.count && cb.server == 0
  {
    hide Interpret, KRPING_OPTS, Take, Harmless, Acceptable, Split, All;
    TableHasNoZero();
    AllPieces(cmd, KRPING_OPTS, num);
    var t := NonEmpty(Split(cmd));
    var rs := InterpretAll(t, KRPING_OPTS, num);
    StickyError(FRESH, rs);
    RoleSet(FRESH, rs);
    InRange(FRESH, rs);
    assert FRESH.ret == 0 && FRESH.server == -1;
    forall piece
      ensures piece in t <==> piece in Split(cmd) && piece != ""
    {
      NonEmptyMembers(Split(cmd), piece);
    }
    RolePiece(t, num);
    EachPiece(t, num);
  }

  lemma RolePiece(t: seq<string>, num: Strtoul)
    ensures (exists i :: 0 <= i < |t| && InterpretAll(t, KRPING_OPTS, num)[i].op == 'c' as int) <==> "client" in t
  {
    hide Interpret, KRPING_OPTS;
    var rs := InterpretAll(t, KRPING_OPTS, num);
    forall i | 0 <= i < |t|
      ensures rs[i].op == 'c' as int <==> t[i] == "client"
    {
      HarmlessIsAcceptable(t[i], num);
    }
  }

  lemma EachPiece(t: seq<string>, num: Strtoul)
    ensures (forall i :: 0 <= i < |t| ==> Harmless(InterpretAll(t, KRPING_OPTS, num)[i]))
      <==> forall piece :: piece in t ==> Acceptable(piece, num)
  {
    hide Interpret, KRPING_OPTS, Harmless, Acceptable;
    var rs := InterpretAll(t, KRPING_OPTS, num);
    forall i | 0 <= i < |t|
      ensures Harmless(rs[i]) <==> Acceptable(t[i], num)
    {
      HarmlessIsAcceptable(t[i], num);
    }
  }

  // ---------------------------------------------------------------- what the fields come to

  /** The last result of this kind. */
  function LastOf(rs: seq<Result>, op: char): (k: Option<nat>)
    ensures k.Some? ==> k.value < |rs| && rs[k.value].op == op as int
    ensures forall j :: (if k.Some? then k.value + 1 else 0) <= j < |rs| ==> rs[j].op != op as int
  {
    if rs == [] then None
    else if rs[|rs| - 1].op == op as int then Some(|rs| - 1)
    else LastOf(rs[..|rs| - 1], op)
  }

  function LastHarm(rs: seq<Result>): (k: Option<nat>)
    ensures k.Some? ==> k.value < |rs| && !Harmless(rs[k.value])
    ensures forall j :: (if k.Some? then k.value + 1 else 0) <= j < |rs| ==> Harmless(rs[j])
  {
    if rs == [] then None
    else if !Harmless(rs[|rs| - 1]) then Some(|rs| - 1)
    else LastHarm(rs[..|rs| - 1])
  }

  function Times(rs: seq<Result>, op: char): nat {
    if rs == [] then 0 else Times(rs[..|rs| - 1], op) + if rs[|rs| - 1].op == op as int then 1 else 0
  }

  lemma {:induction false} TakeLast(cb: Cb, rs: seq<Result>)
    requires rs != []
    ensures TakeAll(cb, rs) == Take(TakeAll(cb, rs[..|rs| - 1]), rs[|rs| - 1])
    decreases |rs|
  {
    hide Take;
    if |rs| > 1 {
      TakeLast(Take(cb, rs[0]), rs[1..]);
      assert rs[1..][..|rs| - 2] == rs[..|rs| - 1][1..];
    }
  }

  function Final(rs: seq<Result>, op: char): Option<Result> {
    var k := LastOf(rs, op);
    if k.None? then None else Some(rs[k.value])
  }

  function FinalHarm(rs: seq<Result>): Option<Result> {
    var k := LastHarm(rs);
    if k.None? then None else Some(rs[k.value])
  }

  lemma FinalStep(rs: seq<Result>, op: char)
    requires rs != []
    ensures var r := rs[|rs| - 1]; Final(rs, op) == if r.op == op as int then Some(r) else Final(rs[..|rs| - 1], op)
  {
  }

  lemma FinalHarmStep(rs: seq<Result>)
    requires rs != []
    ensures var r := rs[|rs| - 1]; FinalHarm(rs) == if !Harmless(r) then Some(r) else FinalHarm(rs[..|rs| - 1])
  {
    hide Harmless;
  }

  /** A number out of range sets the flag to EINVAL, anything else that harms sets it to -EINVAL. */
  function Blame(r: Result): int {
    if r.op == 'S' as int || r.op == 'C' as int then EINVAL else -EINVAL
  }

  lemma TakeRet(cb: Cb, r: Result)
    ensures Take(cb, r).ret == if Harmless(r) then cb.ret else Blame(r)
  {
    hide ToInt;
  }

  /** Whatever came before: of repeated options the last counts, verbose flags add up, fields no option
      names stay as they were, and the last harmful result decides the error. */
  lemma {:induction false} LastOneCounts(cb: Cb, rs: seq<Result>)
    ensures var d := TakeAll(cb, rs);
      && d.port == (match Final(rs, 'p') case None => cb.port case Some(r) => Num(r) % 0x1_0000)
      && d.size == (match Final(rs, 'S') case None => cb.size case Some(r) => ToInt(Num(r)))
      && d.count == (match Final(rs, 'C') case None => cb.count case Some(r) => ToInt(Num(r)))
      && d.addr == (match Final(rs, 'a') case None => cb.addr case Some(r) => r.arg)
      && d.server == (if Final(rs, 'c').None? then cb.server else 0)
      && d.verbose == cb.verbose + Times(rs, 'v')
      && d.ret == (match FinalHarm(rs) case None => cb.ret case Some(r) => Blame(r))
    decreases |rs|
  {
    hide ToInt, Num, Final, FinalHarm, Harmless, Blame;
    if rs == [] {
      NoneFinal();
    } else {
      var most, r := rs[..|rs| - 1], rs[|rs| - 1];
      LastOneCounts(cb, most);
      TakeLast(cb, rs);
      hide TakeAll;
      FinalStep(rs, 'p');
      FinalStep(rs, 'S');
      FinalStep(rs, 'C');
      FinalStep(rs, 'a');
      FinalStep(rs, 'c');
      FinalHarmStep(rs);
      TakeRet(TakeAll(cb, most), r);
    }
  }

  lemma NoneFinal()
    ensures forall op :: Final([], op) == None
    ensures FinalHarm([]) == None
  {
  }

  /** The piece gives this option a value it can take. */
  predicate Sets(piece: string, name: string, num: Strtoul) {
    var (n, arg) := Cut(piece, '=');
    n == name && arg.Some? && (name == "addr" || num(arg.value).used == |arg.value|)
  }

  /** The last piece that does. */
  function LastSet(t: seq<string>, name: string, num: Strtoul): (k: Option<nat>)
    ensures k.Some? ==> k.value < |t| && Sets(t[k.value], name, num)
    ensures forall j :: (if k.Some? then k.value + 1 else 0) <= j < |t| ==> !Sets(t[j], name, num)
  {
    if t == [] then None
    else if Sets(t[|t| - 1], name, num) then Some(|t| - 1)
    else LastSet(t[..|t| - 1], name, num)
  }

  /** The last piece that is not acceptable. */
  function LastBad(t: seq<string>, num: Strtoul): (k: Option<nat>)
    ensures k.Some? ==> k.value < |t|
  {
    if t == [] then None
    else if Acceptable(t[|t| - 1], num) then LastBad(t[..|t| - 1], num)
    else Some(|t| - 1)
  }

  lemma {:induction false} LastBadIs(t: seq<string>, num: Strtoul)
    ensures var k := LastBad(t, num);
      && (k.Some? ==> !Acceptable(t[k.value], num))
      && forall j :: (if k.Some? then k.value + 1 else 0) <= j < |t| ==> Acceptable(t[j], num)
  {
    hide Acceptable;
    if t != [] {
      LastBadIs(t[..|t| - 1], num);
    }
  }

  function Verbosity(t: seq<string>): nat {
    if t == [] then 0 else Verbosity(t[..|t| - 1]) + if t[|t| - 1] == "verbose" then 1 else 0
  }

  /** The text the last piece setting `name` gives it, if there is one. */
  function LastText(t: seq<string>, name: string, num: Strtoul): Option<string> {
    var k := LastSet(t, name, num);
    if k.None? then None else Cut(t[k.value], '=').1
  }

  lemma {:induction false} VerbosityCounts(t: seq<string>)
    ensures Verbosity(t) == multiset(t)["verbose"]
  {
    if t != [] {
      VerbosityCounts(t[..|t| - 1]);
      assert t == t[..|t| - 1] + [t[|t| - 1]];
    }
  }

  /** What a name of the table, with its argument, makes the switch do. */
  ghost predicate PartsMean(name: string, arg: Option<string>, r: Result, num: Strtoul) {
    var full := arg.Some? && num(arg.value).used == |arg.value|;
    && (r.op == 'p' as int <==> name == "port" && full)
    && (r.op == 'S' as int <==> name == "size" && full)
    && (r.op == 'C' as int <==> name == "count" && full)
    && (r.op == 'a' as int <==> name == "addr" && arg.Some?)
    && (r.op == 'v' as int <==> name == "verbose" && arg.None?)
    && (name == "addr" ==> r.arg == arg)
    && (r.op == 'p' as int || r.op == 'S' as int || r.op == 'C' as int ==> full && r.value == Some(num(arg.value).value))
  }

  lemma NumberRowsMean(arg: Option<string>, num: Strtoul)
    ensures PartsMean("count", arg, Decide(Takes("count", 'C'), arg, num), num)
    ensures PartsMean("size", arg, Decide(Takes("size", 'S'), arg, num), num)
    ensures PartsMean("port", arg, Decide(Takes("port", 'p'), arg, num), num)
  {
  }

  lemma OtherRowsMean(arg: Option<string>, num: Strtoul)
    ensures PartsMean("addr", arg, Decide(Text("addr", 'a'), arg, num), num)
    ensures PartsMean("verbose", arg, Decide(Flag("verbose", 'v'), arg, num), num)
    ensures PartsMean("client", arg, Decide(Flag("client", 'c'), arg, num), num)
  {
  }

  lemma RowsMean(name: string, arg: Option<string>, num: Strtoul)
    requires SixName(name)
    ensures Find(KRPING_OPTS, name).Some? && PartsMean(name, arg, Decide(Find(KRPING_OPTS, name).value, arg, num), num)
  {
    hide Find, KRPING_OPTS, Decide, Takes, Text, Flag, PartsMean;
    NumberRowsMean(arg, num);
    OtherRowsMean(arg, num);
    RowCount();
    RowSize();
    RowAddr();
    RowPort();
    RowVerbose();
    RowClient();
  }

  /** Which pieces reach which case of the switch, with what, and which do harm. */
  ghost predicate Means(piece: string, r: Result, num: Strtoul) {
    var arg := Cut(piece, '=').1;
    && (r.op == 'p' as int <==> Sets(piece, "port", num))
    && (r.op == 'S' as int <==> Sets(piece, "size", num))
    && (r.op == 'C' as int <==> Sets(piece, "count", num))
    && (r.op == 'a' as int <==> Sets(piece, "addr", num))
    && (r.op == 'v' as int <==> piece == "verbose")
    && (r.op == 'a' as int ==> r.arg == arg)
    && (r.op == 'p' as int || r.op == 'S' as int || r.op == 'C' as int ==> arg.Some? && Num(r) == num(arg.value).value)
    && (Harmless(r) <==> Acceptable(piece, num))
  }

  lemma PieceMeans(piece: string, num: Strtoul)
    ensures Means(piece, Interpret(piece, KRPING_OPTS, num), num)
  {
    hide Find, Index, Cut, KRPING_OPTS, Decide, SixName, Harmless, Acceptable;
    var (name, arg) := Cut(piece, '=');
    BareName(piece);
    NamesAreSix(name);
    HarmlessIsAcceptable(piece, num);
    if SixName(name) {
      RowsMean(name, arg, num);
    } else {
      OtherParts(name, arg, num);
    }
  }

  lemma NamesAreSix(name: string)
    ensures name == "port" || name == "size" || name == "count" || name == "addr" || name == "verbose" ==> SixName(name)
  {
  }

  ghost predicate AllMean(t: seq<string>, rs: seq<Result>, num: Strtoul) {
    |t| == |rs| && forall i :: 0 <= i < |t| ==> Means(t[i], rs[i], num)
  }

  lemma EachMeans(t: seq<string>, num: Strtoul)
    ensures AllMean(t, InterpretAll(t, KRPING_OPTS, num), num)
  {
    hide Interpret, KRPING_OPTS, Means;
    var rs := InterpretAll(t, KRPING_OPTS, num);
    forall i | 0 <= i < |t|
      ensures Means(t[i], rs[i], num)
    {
      PieceMeans(t[i], num);
    }
  }

  lemma {:induction false} TimesAreVerbosity(t: seq<string>, rs: seq<Result>, num: Strtoul)
    requires AllMean(t, rs, num)
    ensures Times(rs, 'v') == Verbosity(t)
  {
    hide Means;
    if t != [] {
      TimesAreVerbosity(t[..|t| - 1], rs[..|rs| - 1], num);
      assert Means(t[|t| - 1], rs[|t| - 1], num) ==> (rs[|t| - 1].op == 'v' as int <==> t[|t| - 1] == "verbose") by {
        VerboseMeans(t[|t| - 1], rs[|t| - 1], num);
      }
    }
  }

  lemma VerboseMeans(piece: string, r: Result, num: Strtoul)
    ensures Means(piece, r, num) ==> (r.op == 'v' as int <==> piece == "verbose")
  {
  }

  /** The last result of a kind comes from the last piece setting that option. */
  lemma FinalIsLastSet(t: seq<string>, rs: seq<Result>, op: char, name: string, num: Strtoul)
    requires |t| == |rs| && forall i :: 0 <= i < |t| ==> (rs[i].op == op as int <==> Sets(t[i], name, num))
    ensures LastOf(rs, op) == LastSet(t, name, num)
  {
    hide Sets;
    var k, l := LastOf(rs, op), LastSet(t, name, num);
    if k.Some? {
      assert Sets(t[k.value], name, num);
    }
    if l.Some? {
      assert rs[l.value].op == op as int;
    }
  }

  lemma FinalHarmIsLastBad(t: seq<string>, rs: seq<Result>, num: Strtoul)
    requires |t| == |rs| && forall i :: 0 <= i < |t| ==> (Harmless(rs[i]) <==> Acceptable(t[i], num))
    ensures LastHarm(rs) == LastBad(t, num)
  {
    hide Harmless, Acceptable;
    LastBadIs(t, num);
    var k, l := LastHarm(rs), LastBad(t, num);
    if k.Some? {
      assert !Acceptable(t[k.value], num);
    }
    if l.Some? {
      assert !Harmless(rs[l.value]);
    }
  }

  lemma NumberFields(t: seq<string>, rs: seq<Result>, op: char, name: string, num: Strtoul)
    requires AllMean(t, rs, num)
    requires (op, name) in [('p', "port"), ('S', "size"), ('C', "count")]
    ensures match LastText(t, name, num)
      case None => Final(rs, op) == None
      case Some(a) => Final(rs, op).Some? && Num(Final(rs, op).value) == num(a).value
  {
    hide Sets, Cut, Harmless, Acceptable, Num;
    FinalIsLastSet(t, rs, op, name, num);
    var k := LastSet(t, name, num);
    if k.Some? {
      assert Means(t[k.value], rs[k.value], num);
    }
  }

  lemma AddressField(t: seq<string>, rs: seq<Result>, num: Strtoul)
    requires AllMean(t, rs, num)
    ensures LastText(t, "addr", num) == match Final(rs, 'a') case None => None case Some(r) => r.arg
  {
    hide Sets, Cut, Harmless, Acceptable, Num;
    FinalIsLastSet(t, rs, 'a', "addr", num);
  }

  lemma ErrorField(t: seq<string>, rs: seq<Result>, num: Strtoul)
    requires AllMean(t, rs, num)
    ensures match LastBad(t, num)
      case None => FinalHarm(rs) == None
      case Some(k) =>
        && FinalHarm(rs).Some?
        && Blame(FinalHarm(rs).value) == if Sets(t[k], "size", num) || Sets(t[k], "count", num) then EINVAL else -EINVAL
  {
    hide Sets, Cut, Harmless, Acceptable, Num;
    FinalHarmIsLastBad(t, rs, num);
    var k := LastBad(t, num);
    if k.Some? {
      assert Means(t[k.value], rs[k.value], num);
    }
  }

  lemma VerdictIs(cb: Cb, blamed: Option<int>, client: bool)
    requires cb.ret == (if blamed.None? then 0 else blamed.value) && (blamed.Some? ==> blamed.value != 0)
    requires cb.server == -1 || cb.server == 0
    requires cb.server == 0 <==> client
    ensures Verdict(cb) == if blamed.Some? then blamed.value else if client then 0 else -EINVAL
  {
  }

  /** Of the pieces between the commas of a command: the last port, size, count and address given
      properly are the ones used, the others keep their defaults, and each "verbose" counts once.
      The last piece that is not acceptable decides the return value: EINVAL for a size or count that
      converts but is out of range, -EINVAL for anything else, and for a missing "client". */
  lemma DoitFields(cmd: string, num: Strtoul)
    ensures var t := NonEmpty(Split(cmd)); var cb := Parse(cmd, num);
      && cb.port == (match LastText(t, "port", num) case None => 0 case Some(a) => num(a).value % 0x1_0000)
      && cb.size == (match LastText(t, "size", num) case None => 64 case Some(a) => ToInt(num(a).value))
      && cb.count == (match LastText(t, "count", num) case None => 0 case Some(a) => ToInt(num(a).value))
      && cb.addr == LastText(t, "addr", num)
      && cb.verbose == multiset(t)["verbose"]
      && Verdict(cb) == (match LastBad(t, num)
                         case None => if "client" in t then 0 else -22
                         case Some(k) =>
                           if Sets(t[k], "size", num) || Sets(t[k], "count", num) then 22 else -22)
    ensures var t := NonEmpty(Split(cmd)); var cb := Parse(cmd, num);
      && (var a := LastText(t, "size", num);
          a.Some? && num(a.value).value < 0x8000_0000 ==> cb.size == num(a.value).value)
      && (var a := LastText(t, "count", num);
          a.Some? && num(a.value).value < 0x8000_0000 ==> cb.count == num(a.value).value)
  {
    hide Interpret, KRPING_OPTS, Take, TakeAll, Split, NonEmpty, All, Sets, ToInt, Num, AllMean, Final, FinalHarm, LastBad,
      LastText, Verdict, InterpretAll, Verbosity, Times, Blame;
    TableHasNoZero();
    AllPieces(cmd, KRPING_OPTS, num);
    var t := NonEmpty(Split(cmd));
    var rs := InterpretAll(t, KRPING_OPTS, num);
    EachMeans(t, num);
    LastOneCounts(FRESH, rs);
    TimesAreVerbosity(t, rs, num);
    VerbosityCounts(t);
    NumberFields(t, rs, 'p', "port", num);
    NumberFields(t, rs, 'S', "size", num);
    NumberFields(t, rs, 'C', "count", num);
    AddressField(t, rs, num);
    ErrorField(t, rs, num);
    RoleSet(FRESH, rs);
    RolePiece(t, num);
    var size, count := LastText(t, "size", num), LastText(t, "count", num);
    if size.Some? {
      SmallToInt(num(size.value).value);
    }
    if count.Some? {
      SmallToInt(num(count.value).value);
    }
    VerdictIs(TakeAll(FRESH, rs), if FinalHarm(rs).None? then None else Some(Blame(FinalHarm(rs).value)), "client" in t);
  }

  // ---------------------------------------------------------------- the loop

  /** What is left to do, and an argument pointer handed out earlier that is still good. */
  lemma ArgumentStays(before: seq<char>, after: seq<char>, p: Ptr, rest: Ptr)
    requires IsString(before, p) && |after| == |before|
    requires if rest.At? then rest.i <= |before| && before[..rest.i] == after[..rest.i] else before == after
    requires p.At? && rest.At? ==> End(before, p.i) < rest.i
    ensures IsString(after, p) && View(after, p) == View(before, p)
    ensures p.At? && rest.At? ==> End(after, p.i) < rest.i
  {
    if p.At? && rest.At? {
      StrEnds(before, p.i);
      assert forall j :: 0 <= j < rest.i ==> after[j] == after[..rest.i][j] && before[j] == before[..rest.i][j];
      StrIs(after, p.i, End(before, p.i));
      assert after[p.i..End(before, p.i)] == before[p.i..End(before, p.i)];
    }
  }

  /** Parses the command in its own buffer and decides whether to go on: `ret` is 0 just when the code
      reaches rdma_create_id, and the fields are then those Parse gives, the address still readable. */
  method KrpingDoit(buf: array<char>, num: Strtoul) returns (ret: int, cb: Cb, addr: Ptr)
    requires IsString(buf[..], At(0))
    modifies buf
    ensures IsString(buf[..], addr)
    ensures cb.(addr := View(buf[..], addr)) == Parse(Str(old(buf[..]), 0), num)
    ensures ret == Verdict(Parse(Str(old(buf[..]), 0), num))
  {
    cb := FRESH;
    addr := Null;
    var cmd := At(0);
    ghost var whole := Parse(Str(buf[..], 0), num);
    TableHasNoZero();
    Starts(buf[..], num);
    hide Parse, KRPING_OPTS, All, Next, Str, View, TakeAll, End, Take;
    while true
      invariant IsString(buf[..], cmd) && IsString(buf[..], addr)
      invariant addr.At? && cmd.At? ==> End(buf[..], addr.i) < cmd.i
      invariant cb.addr.None?
      invariant whole == TakeAll(cb.(addr := View(buf[..], addr)), All(View(buf[..], cmd), KRPING_OPTS, num))
      decreases if cmd.At? then 1 + buf.Length - cmd.i else 0
    {
      ghost var before, unread := buf[..], cmd;
      var op, rest, optopt, optarg, value := KrpingGetopt(buf, cmd, KRPING_OPTS, num);
      ArgumentStays(before, buf[..], addr, unread);
      ghost var r := Result(op, if optopt.At? then Str(buf[..], optopt.i) else "", View(buf[..], optarg), value);
      OneCall(View(before, unread), num, cb.(addr := View(before, addr)));
      cmd := rest;
      if op == 0 {
        break;
      }
      ghost var was := cb.(addr := View(before, addr));
      cb, addr := Switch(op, optarg, value, cb, addr);
      assert Take(was, r) == cb.(addr := View(buf[..], addr));
    }
    ret := if cb.ret != 0 then cb.ret else if cb.server == -1 then -EINVAL else 0;
  }

  lemma Starts(buf: seq<char>, num: Strtoul)
    requires IsString(buf, At(0))
    ensures Parse(Str(buf, 0), num) == TakeAll(FRESH.(addr := View(buf, Null)), All(View(buf, At(0)), KRPING_OPTS, num))
  {
  }

  /** A call either finds nothing, and the parse is over, or takes one result off the front. */
  lemma OneCall(unread: Option<string>, num: Strtoul, cb: Cb)
    ensures var (r, left) := Next(unread, KRPING_OPTS, num);
      var after := TakeAll(cb, All(unread, KRPING_OPTS, num));
      if r.None? then after == cb
      else r.value.op != 0 && after == TakeAll(Take(cb, r.value), All(left, KRPING_OPTS, num))
  {
    hide KRPING_OPTS, Interpret, Take;
    FoundNonzero(unread, num);
    var (r, left) := Next(unread, KRPING_OPTS, num);
    if r.Some? {
      assert All(unread, KRPING_OPTS, num) == [r.value] + All(left, KRPING_OPTS, num);
    }
  }

  lemma {:induction false} FoundNonzero(unread: Option<string>, num: Strtoul)
    ensures var (r, _) := Next(unread, KRPING_OPTS, num); r.Some? ==> r.value.op != 0
    decreases if unread.None? then 0 else |unread.value| + 1
  {
    TableHasNoZero();
    hide KRPING_OPTS, Interpret;
    if unread.Some? {
      var (token, rest) := Cut(unread.value, ',');
      InterpretNonzero(token, KRPING_OPTS, num);
      if token == "" {
        FoundNonzero(rest, num);
      }
    }
  }

  /** The switch over the option found, on the fields and the address pointer. */
  method Switch(op: int, optarg: Ptr, value: Option<nat>, cb0: Cb, addr0: Ptr) returns (cb: Cb, addr: Ptr)
    requires cb0.addr.None?
    ensures addr == if op == 'a' as int then optarg else addr0
    ensures forall name, before, arg ::
      Take(cb0.(addr := before), Result(op, name, arg, value)) == cb.(addr := if op == 'a' as int then arg else before)
    ensures cb.addr.None?
  {
    cb, addr := cb0, addr0;
    var optint := if value.Some? then value.value else 0;
    if op == 'a' as int {
      addr := optarg;
    } else if op == 'p' as int {
      cb := cb.(port := optint % 0x1_0000);
    } else if op == 'c' as int {
      cb := cb.(server := 0);
    } else if op == 'S' as int {
      cb := cb.(size := ToInt(optint));
      if cb.size < 1 || cb.size > MAX_SIZE {
        cb := cb.(ret := EINVAL);
      }
    } else if op == 'C' as int {
      cb := cb.(count := ToInt(optint));
      if cb.count < 0 {
        cb := cb.(ret := EINVAL);
      }
    } else if op == 'v' as int {
      cb := cb.(verbose := cb.verbose + 1);
    } else {
      cb := cb.(ret := -EINVAL);
    }
  }
}
