/** The option tokenizer of bak/getopt.c, in place over a NUL-terminated buffer, and what it makes of a
    whole option string. */
module Getopt {
  import opened Options

  const NUL: char := '\0'

  // ---------------------------------------------------------------- cutting strings

  /** The first place `c` stands, or the length. */
  function Index(s: string, c: char): (k: nat)
    ensures k <= |s|
    ensures forall j :: 0 <= j < k ==> s[j] != c
    ensures k < |s| ==> s[k] == c
  {
    if s == [] || s[0] == c then 0 else 1 + Index(s[1..], c)
  }

  lemma IndexIs(s: string, c: char, k: nat)
    requires k <= |s| && (forall j :: 0 <= j < k ==> s[j] != c) && (k < |s| ==> s[k] == c)
    ensures Index(s, c) == k
  {
  }

  /** What stands before the first `c`, and what after it if there is one. */
  function Cut(s: string, c: char): (string, Option<string>) {
    var k := Index(s, c);
    if k < |s| then (s[..k], Some(s[k + 1..])) else (s, None)
  }

  lemma CutJoined(a: string, b: string, c: char)
    requires c !in a
    ensures Cut(a + [c] + b, c) == (a, Some(b))
    ensures Cut(a, c) == (a, None)
  {
    var s := a + [c] + b;
    IndexIs(s, c, |a|);
    IndexIs(a, c, |a|);
    assert s[..|a|] == a && s[|a| + 1..] == b;
  }

  /** All the pieces between commas. */
  function Split(s: string): (t: seq<string>)
    ensures |t| > 0
    decreases |s|
  {
    match Cut(s, ',')
    case (a, None) => [a]
    case (a, Some(b)) => [a] + Split(b)
  }

  function Join(t: seq<string>): string
    requires |t| > 0
  {
    if |t| == 1 then t[0] else t[0] + [','] + Join(t[1..])
  }

  lemma {:induction false} SplitJoin(t: seq<string>)
    requires |t| > 0 && forall i :: 0 <= i < |t| ==> ',' !in t[i]
    ensures Split(Join(t)) == t
  {
    if |t| == 1 {
      CutJoined(t[0], "", ',');
    } else {
      SplitJoin(t[1..]);
      CutJoined(t[0], Join(t[1..]), ',');
    }
  }

  /** The pieces, joined, are the string again, and none of them holds a comma. */
  lemma {:induction false} JoinSplit(s: string)
    ensures Join(Split(s)) == s
    ensures forall i :: 0 <= i < |Split(s)| ==> ',' !in Split(s)[i]
    decreases |s|
  {
    hide Index;
    NoneBefore(s);
    match Cut(s, ',')
    case (a, None) =>
    case (a, Some(b)) =>
      JoinSplit(b);
      assert s == a + [','] + b;
  }

  lemma NoneBefore(s: string)
    ensures ',' !in Cut(s, ',').0
  {
  }

  // ---------------------------------------------------------------- options

  /** struct krping_option; has_arg is a set of flags. */
  datatype Opt = Opt(name: string, noParam: bool, isInt: bool, isString: bool, val: int)

  const EINVAL: int := 22
  const EDOM: int := 33
  const EOPNOTSUPP: int := 95

  /** What simple_strtoul makes of a string: a number, and how many characters it used. */
  datatype Number = Number(value: nat, used: nat)

  type Strtoul = f: string -> Number | forall s :: f(s).used <= |s|
    witness (s: string) => Number(0, 0)

  function Find(table: seq<Opt>, name: string): (o: Option<Opt>)
    ensures o.Some? ==> o.value in table && o.value.name == name
    ensures o.None? ==> forall i :: 0 <= i < |table| ==> table[i].name != name
  {
    if table == [] then None
    else if table[0].name == name then Some(table[0])
    else Find(table[1..], name)
  }

  /** One call's results: the return value, the option's name and argument, and the number if the
      conversion was done. */
  datatype Result = Result(op: int, name: string, arg: Option<string>, value: Option<nat>)

  function Interpret(token: string, table: seq<Opt>, num: Strtoul): Result {
    var (name, arg) := Cut(token, '=');
    match Find(table, name)
    case None => Result(-EOPNOTSUPP, name, arg, None)
    case Some(o) => Decide(o, arg, num)
  }

  /** What a row of the table makes of an argument. */
  function Decide(o: Opt, arg: Option<string>, num: Strtoul): Result {
    if arg.None? then Result(if o.noParam then o.val else -EINVAL, o.name, arg, None)
    else if o.isInt then
      var n := num(arg.value);
      Result(if n.used == |arg.value| then o.val else -EDOM, o.name, arg, Some(n.value))
    else Result(if o.isString then o.val else -EINVAL, o.name, arg, None)
  }

  /** The first row of a piece's name decides, and these are the errors: 95 if there is no such row, 22 for
      an argument missing or not wanted, 33 for a number that does not use up its text. */
  lemma ErrorsOf(token: string, table: seq<Opt>, num: Strtoul) returns (k: nat)
    ensures k <= |table| && forall j :: 0 <= j < k ==> table[j].name != Cut(token, '=').0
    ensures var (name, arg) := Cut(token, '='); var op := Interpret(token, table, num).op;
      if k == |table| then op == -95
      else
        && table[k].name == name
        && var o := table[k];
          if arg.None? then op == if o.noParam then o.val else -22
          else if o.isInt then op == if num(arg.value).used == |arg.value| then o.val else -33
          else op == if o.isString then o.val else -22
  {
    hide Cut;
    k := FirstRow(table, Cut(token, '=').0);
  }

  lemma {:induction false} FirstRow(table: seq<Opt>, name: string) returns (k: nat)
    ensures k <= |table| && forall j :: 0 <= j < k ==> table[j].name != name
    ensures k < |table| ==> table[k].name == name
    ensures Find(table, name) == if k < |table| then Some(table[k]) else None
  {
    if table == [] || table[0].name == name {
      k := 0;
    } else {
      k := FirstRow(table[1..], name);
      k := k + 1;
    }
  }

  /** One call on the unread suffix, `None` once strsep has run off the end. */
  function Next(rest: Option<string>, table: seq<Opt>, num: Strtoul): (r: (Option<Result>, Option<string>))
    ensures r.0.Some? ==> rest.Some? && (r.1.Some? ==> |r.1.value| < |rest.value|)
    ensures r.0.None? ==> r.1.None?
    decreases if rest.None? then 0 else |rest.value| + 1
  {
    if rest.None? then (None, None)
    else
      var (token, rest') := Cut(rest.value, ',');
      if token == "" then Next(rest', table, num) else (Some(Interpret(token, table, num)), rest')
  }

  /** What calling until 0 yields. */
  function All(rest: Option<string>, table: seq<Opt>, num: Strtoul): seq<Result>
    decreases if rest.None? then 0 else |rest.value| + 1
  {
    match Next(rest, table, num)
    case (None, _) => []
    case (Some(r), rest') => if r.op == 0 then [] else [r] + All(rest', table, num)
  }

  function NonEmpty(t: seq<string>): seq<string> {
    if t == [] then [] else (if t[0] == "" then [] else [t[0]]) + NonEmpty(t[1..])
  }

  function InterpretAll(t: seq<string>, table: seq<Opt>, num: Strtoul): (r: seq<Result>)
    ensures |r| == |t|
    ensures forall i :: 0 <= i < |t| ==> r[i] == Interpret(t[i], table, num)
  {
    seq(|t|, i requires 0 <= i < |t| => Interpret(t[i], table, num))
  }

  ghost predicate NoZero(table: seq<Opt>) {
    forall i :: 0 <= i < |table| ==> table[i].val != 0
  }

  /** Calling until 0 interprets every nonempty piece between commas, once, in order, and stops. */
  lemma {:induction false} AllPieces(s: string, table: seq<Opt>, num: Strtoul)
    requires NoZero(table)
    ensures All(Some(s), table, num) == InterpretAll(NonEmpty(Split(s)), table, num)
    decreases |s|
  {
    hide Interpret, Index;
    var (token, rest) := Cut(s, ',');
    InterpretNonzero(token, table, num);
    if rest.Some? {
      AllPieces(rest.value, table, num);
    }
    if token == "" {
      SkipEmpty(s, rest, table, num);
    }
    SplitFirst(s);
    hide Cut, Split, NonEmpty;
  }

  lemma SplitFirst(s: string)
    ensures var (token, rest) := Cut(s, ',');
      NonEmpty(Split(s)) == (if token == "" then [] else [token]) + if rest.Some? then NonEmpty(Split(rest.value)) else []
  {
    hide Cut;
    var (token, rest) := Cut(s, ',');
    if rest.Some? {
      assert Split(s)[1..] == Split(rest.value);
    }
  }

  lemma InterpretNonzero(token: string, table: seq<Opt>, num: Strtoul)
    requires NoZero(table)
    ensures Interpret(token, table, num).op != 0
  {
  }

  lemma SkipEmpty(s: string, rest: Option<string>, table: seq<Opt>, num: Strtoul)
    requires Cut(s, ',') == ("", rest)
    ensures All(Some(s), table, num) == if rest.Some? then All(rest, table, num) else []
  {
  }

  // ---------------------------------------------------------------- print and parse

  datatype Item = Item(name: string, arg: Option<string>)

  function Print(i: Item): string {
    if i.arg.None? then i.name else i.name + ['='] + i.arg.value
  }

  /** An option of the table, with an argument it takes. */
  predicate WellFormed(i: Item, table: seq<Opt>, num: Strtoul) {
    && i.name != "" && ',' !in i.name && '=' !in i.name
    && match Find(table, i.name)
       case None => false
       case Some(o) =>
         if i.arg.None? then o.noParam
         else ',' !in i.arg.value && if o.isInt then num(i.arg.value).used == |i.arg.value| else o.isString
  }

  /** What parsing an item should give back. */
  function Expected(i: Item, table: seq<Opt>, num: Strtoul): Result
    requires WellFormed(i, table, num)
  {
    var o := Find(table, i.name).value;
    Result(o.val, i.name, i.arg, if i.arg.Some? && o.isInt then Some(num(i.arg.value).value) else None)
  }

  lemma InterpretPrint(i: Item, table: seq<Opt>, num: Strtoul)
    requires WellFormed(i, table, num)
    ensures Interpret(Print(i), table, num) == Expected(i, table, num)
    ensures Print(i) != "" && ',' !in Print(i)
  {
    CutJoined(i.name, if i.arg.None? then "" else i.arg.value, '=');
  }

  /** The items with any number of empty pieces among them. */
  function PrintPieces(pieces: seq<Option<Item>>): (t: seq<string>)
    ensures |t| == |pieces|
  {
    seq(|pieces|, k requires 0 <= k < |pieces| => if pieces[k].None? then "" else Print(pieces[k].value))
  }

  function Items(pieces: seq<Option<Item>>): seq<Item> {
    if pieces == [] then [] else (if pieces[0].None? then [] else [pieces[0].value]) + Items(pieces[1..])
  }

  ghost predicate AllWellFormed(pieces: seq<Option<Item>>, table: seq<Opt>, num: Strtoul) {
    forall k :: 0 <= k < |pieces| && pieces[k].Some? ==> WellFormed(pieces[k].value, table, num)
  }

  lemma {:induction false} NonEmptyPieces(pieces: seq<Option<Item>>, table: seq<Opt>, num: Strtoul)
    requires AllWellFormed(pieces, table, num)
    ensures var t := NonEmpty(PrintPieces(pieces));
      && |t| == |Items(pieces)|
      && forall k :: 0 <= k < |t| ==> t[k] == Print(Items(pieces)[k]) && WellFormed(Items(pieces)[k], table, num)
  {
    hide WellFormed, Print, PrintPieces, Interpret, Expected;
    if pieces != [] {
      NonEmptyPieces(pieces[1..], table, num);
      PrintFirst(pieces);
      if pieces[0].Some? {
        InterpretPrint(pieces[0].value, table, num);
      }
    }
  }

  lemma PrintFirst(pieces: seq<Option<Item>>)
    requires pieces != []
    ensures PrintPieces(pieces)[0] == if pieces[0].None? then "" else Print(pieces[0].value)
    ensures PrintPieces(pieces)[1..] == PrintPieces(pieces[1..])
  {
    hide Print;
  }

  /** Printing any well-formed options joined by commas, with any empty pieces thrown in, and calling
      until 0 gives back the same options, arguments and numbers. */
  lemma OptionRoundTrip(pieces: seq<Option<Item>>, table: seq<Opt>, num: Strtoul)
    requires |pieces| > 0 && NoZero(table) && AllWellFormed(pieces, table, num)
    ensures var got := All(Some(Join(PrintPieces(pieces))), table, num);
      && |got| == |Items(pieces)|
      && forall k :: 0 <= k < |got| ==>
        WellFormed(Items(pieces)[k], table, num) && got[k] == Expected(Items(pieces)[k], table, num)
  {
    var t := PrintPieces(pieces);
    forall k | 0 <= k < |t|
      ensures ',' !in t[k]
    {
      if pieces[k].Some? {
        InterpretPrint(pieces[k].value, table, num);
      }
    }
    SplitJoin(t);
    AllPieces(Join(t), table, num);
    NonEmptyPieces(pieces, table, num);
    forall k | 0 <= k < |Items(pieces)|
      ensures Interpret(NonEmpty(t)[k], table, num) == Expected(Items(pieces)[k], table, num)
    {
      InterpretPrint(Items(pieces)[k], table, num);
    }
  }

  // ---------------------------------------------------------------- strings in a buffer

  /** A `char *` into the buffer. */
  datatype Ptr = Null | At(i: nat)

  /** The terminating NUL at or after `i`, or the buffer's end if there is none. */
  function End(buf: seq<char>, i: nat): nat
    requires i <= |buf|
  {
    i + Index(buf[i..], NUL)
  }

  /** The C string a pointer points to. */
  function Str(buf: seq<char>, i: nat): string
    requires i <= |buf|
  {
    buf[i..End(buf, i)]
  }

  predicate IsString(buf: seq<char>, p: Ptr) {
    p.At? ==> p.i <= |buf| && End(buf, p.i) < |buf|
  }

  function View(buf: seq<char>, p: Ptr): Option<string>
    requires IsString(buf, p)
  {
    if p.Null? then None else Some(Str(buf, p.i))
  }

  lemma StrIs(buf: seq<char>, i: nat, e: nat)
    requires i <= e < |buf| && buf[e] == NUL && forall j :: i <= j < e ==> buf[j] != NUL
    ensures End(buf, i) == e && Str(buf, i) == buf[i..e]
  {
    IndexIs(buf[i..], NUL, e - i);
  }

  lemma StrEnds(buf: seq<char>, i: nat)
    requires IsString(buf, At(i))
    ensures var e := End(buf, i); i <= e < |buf| && buf[e] == '\0'
    ensures forall j :: i <= j < End(buf, i) ==> buf[j] != NUL
    ensures |Str(buf, i)| == End(buf, i) - i && forall j :: i <= j < End(buf, i) ==> Str(buf, i)[j - i] == buf[j]
  {
    assert forall j :: i <= j < End(buf, i) ==> buf[i..][j - i] == buf[j];
  }

  /** Cutting a string in place at `k`, where `c` stands: the front and the back become strings, and
      everything before the front is as it was. */
  lemma CutInPlace(before: seq<char>, i: nat, k: nat, c: char, after: seq<char>)
    requires IsString(before, At(i)) && c != NUL
    requires k == i + Index(Str(before, i), c)
    requires after == if k < End(before, i) then before[k := NUL] else before
    ensures i <= k <= End(before, i) && End(after, i) == k < |after|
    ensures Cut(Str(before, i), c).0 == Str(after, i)
    ensures k < End(before, i) ==>
      IsString(after, At(k + 1)) && End(after, k + 1) == End(before, i)
      && Cut(Str(before, i), c).1 == Some(Str(after, k + 1))
    ensures k == End(before, i) ==> Cut(Str(before, i), c).1 == None
  {
    hide Index, End;
    StrEnds(before, i);
    StrIs(after, i, k);
    if k < End(before, i) {
      StrIs(after, k + 1, End(before, i));
      assert Str(before, i)[..k - i] == after[i..k];
      assert Str(before, i)[k - i + 1..] == after[k + 1..End(before, i)];
    }
  }

  /** The first `c` in the string at `i`, or its terminator: the scan of strsep and strchr. */
  method FindChar(buf: array<char>, i: nat, c: char) returns (k: nat)
    requires IsString(buf[..], At(i)) && c != NUL
    ensures k == i + Index(Str(buf[..], i), c) && k <= End(buf[..], i) < buf.Length
    ensures k == End(buf[..], i) <==> buf[k] == NUL
  {
    StrEnds(buf[..], i);
    ghost var s := Str(buf[..], i);
    k := i;
    while buf[k] != NUL && buf[k] != c
      invariant i <= k <= End(buf[..], i)
      invariant forall j :: 0 <= j < k - i ==> s[j] != c
      decreases End(buf[..], i) - k
    {
      assert s[k - i] == buf[k];
      k := k + 1;
    }
    if k < End(buf[..], i) {
      assert s[k - i] == buf[k];
    }
    IndexIs(s, c, k - i);
  }

  /** strsep(options, ","): takes the first piece off the string, ending it with a NUL. */
  method StrSep(buf: array<char>, options: Ptr) returns (token: Ptr, rest: Ptr)
    requires IsString(buf[..], options)
    modifies buf
    ensures options.Null? ==> token.Null? && rest.Null? && buf[..] == old(buf[..])
    ensures options.At? ==>
      && token == options && IsString(buf[..], token) && IsString(buf[..], rest)
      && (rest.At? ==> rest.i == End(buf[..], token.i) + 1)
      && Cut(Str(old(buf[..]), options.i), ',') == (Str(buf[..], token.i), View(buf[..], rest))
      && buf[..options.i] == old(buf[..options.i])
  {
    hide Index, Cut, Str;
    if options.Null? {
      return Null, Null;
    }
    var i := options.i;
    var k := FindChar(buf, i, ',');
    ghost var before := buf[..];
    if buf[k] == NUL {
      rest := Null;
    } else {
      buf[k] := NUL;
      rest := At(k + 1);
    }
    CutInPlace(before, i, k, ',', buf[..]);
    token := options;
  }

  /** A string depends only on the buffer from its start on. */
  lemma StrSame(a: seq<char>, b: seq<char>, i: nat)
    requires i <= |a| == |b| && a[i..] == b[i..]
    ensures End(a, i) == End(b, i) && Str(a, i) == Str(b, i)
  {
    assert forall j :: i <= j < |a| ==> a[j] == a[i..][j - i] && b[j] == b[i..][j - i];
  }

  /** The do-while loop: takes pieces until one is not empty. */
  method NextToken(buf: array<char>, options: Ptr, ghost opts: seq<Opt>, ghost num: Strtoul)
    returns (token: Ptr, rest: Ptr)
    requires IsString(buf[..], options)
    modifies buf
    ensures IsString(buf[..], token) && IsString(buf[..], rest)
    ensures if options.At? then buf[..options.i] == old(buf[..options.i]) else buf[..] == old(buf[..])
    ensures token.Null? ==> rest.Null? && Next(View(old(buf[..]), options), opts, num) == (None, None)
    ensures token.At? ==>
      && options.At? && options.i <= token.i && Str(buf[..], token.i) != ""
      && (rest.At? ==> rest.i == End(buf[..], token.i) + 1)
      && Next(View(old(buf[..]), options), opts, num) ==
         (Some(Interpret(Str(buf[..], token.i), opts, num)), View(buf[..], rest))
  {
    hide Interpret, Cut;
    token, rest := StrSep(buf, options);
    while token.At? && buf[token.i] == NUL
      invariant IsString(buf[..], rest) && IsString(buf[..], token)
      invariant token.At? ==> options.At? && options.i <= token.i && (rest.At? ==> rest.i == End(buf[..], token.i) + 1)
      invariant token.Null? ==> rest.Null?
      invariant if options.At? then buf[..options.i] == old(buf[..options.i]) else buf[..] == old(buf[..])
      invariant Next(View(old(buf[..]), options), opts, num) ==
        if token.Null? then (None, None)
        else if Str(buf[..], token.i) == "" then Next(View(buf[..], rest), opts, num)
        else (Some(Interpret(Str(buf[..], token.i), opts, num)), View(buf[..], rest))
      decreases if token.Null? then 0 else 1 + buf.Length - token.i
    {
      StrIs(buf[..], token.i, token.i);
      ghost var r := rest;
      ghost var was := buf[..];
      token, rest := StrSep(buf, rest);
      if options.At? && r.At? {
        Prefix(was, buf[..], r.i, options.i);
      }
    }
    if token.At? {
      StrEnds(buf[..], token.i);
    }
  }

  lemma Prefix(a: seq<char>, b: seq<char>, k: nat, i: nat)
    requires i <= k <= |a| && k <= |b| && a[..k] == b[..k]
    ensures a[..i] == b[..i]
  {
    assert a[..i] == a[..k][..i] && b[..i] == b[..k][..i];
  }

  /** The strchr step: ends the name at its first '=' and points past it. */
  method CutName(buf: array<char>, token: nat, rest: Ptr) returns (optarg: Ptr)
    requires IsString(buf[..], At(token)) && IsString(buf[..], rest)
    requires rest.At? ==> End(buf[..], token) < rest.i
    modifies buf
    ensures IsString(buf[..], At(token)) && IsString(buf[..], optarg) && IsString(buf[..], rest)
    ensures Cut(Str(old(buf[..]), token), '=') == (Str(buf[..], token), View(buf[..], optarg))
    ensures buf[..token] == old(buf[..token]) && View(buf[..], rest) == View(old(buf[..]), rest)
    ensures rest.At? ==> End(buf[..], token) < rest.i && (optarg.At? ==> End(buf[..], optarg.i) < rest.i)
  {
    hide Index, Cut, Str, End;
    var k := FindChar(buf, token, '=');
    ghost var before := buf[..];
    optarg := Null;
    if buf[k] != NUL {
      buf[k] := NUL;
      optarg := At(k + 1);
    }
    CutInPlace(before, token, k, '=', buf[..]);
    if rest.At? {
      assert before[rest.i..] == buf[..][rest.i..];
      StrSame(before, buf[..], rest.i);
    }
  }

  /** One call of krping_getopt.  It returns what Next says of the unread string, leaves `options` at
      the string Next leaves, and writes only into the part it has read, so names and arguments it
      gave out before stay as they were. */
  method KrpingGetopt(buf: array<char>, options: Ptr, opts: seq<Opt>, num: Strtoul)
    returns (op: int, rest: Ptr, optopt: Ptr, optarg: Ptr, value: Option<nat>)
    requires IsString(buf[..], options)
    modifies buf
    ensures IsString(buf[..], rest) && IsString(buf[..], optopt) && IsString(buf[..], optarg)
    ensures (if options.At? then buf[..options.i] == old(buf[..options.i]) else buf[..] == old(buf[..]))
    ensures rest.At? ==> options.At? && options.i < rest.i
    ensures optopt.Null? ==> op == 0 && rest.Null? && Next(View(old(buf[..]), options), opts, num) == (None, None)
    ensures optopt.At? ==>
      && Next(View(old(buf[..]), options), opts, num) ==
         (Some(Result(op, Str(buf[..], optopt.i), View(buf[..], optarg), value)), View(buf[..], rest))
      && (rest.At? ==> End(buf[..], optopt.i) < rest.i && (optarg.At? ==> End(buf[..], optarg.i) < rest.i))
  {
    hide Next, Find, Str, View, Index;
    var token;
    token, rest := NextToken(buf, options, opts, num);
    if token.Null? {
      return 0, Null, Null, Null, None;
    }
    optopt := token;
    ghost var was := buf[..];
    optarg := CutName(buf, token.i, rest);
    Prefix(was, buf[..], token.i, options.i);
    op, value := LookUp(buf, token.i, optarg, opts, num);
  }

  /** The scan of the option table. */
  method LookUp(buf: array<char>, name: nat, val: Ptr, opts: seq<Opt>, num: Strtoul)
    returns (op: int, value: Option<nat>)
    requires IsString(buf[..], At(name)) && IsString(buf[..], val)
    ensures forall token :: Cut(token, '=') == (Str(buf[..], name), View(buf[..], val)) ==>
      Interpret(token, opts, num) == Result(op, Str(buf[..], name), View(buf[..], val), value)
  {
    ghost var n := Str(buf[..], name);
    value := None;
    for i := 0 to |opts|
      invariant Find(opts, n) == Find(opts[i..], n)
    {
      if opts[i].name == Str(buf[..], name) {
        if val.Null? {
          return if opts[i].noParam then opts[i].val else -EINVAL, None;
        }
        var text := Str(buf[..], val.i);
        if opts[i].isInt {
          var v := num(text);
          return if v.used == |text| then opts[i].val else -EDOM, Some(v.value);
        }
        return if opts[i].isString then opts[i].val else -EINVAL, None;
      }
    }
    return -EOPNOTSUPP, None;
  }
}
