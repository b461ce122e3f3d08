/** Arguments carried inside a URL: printing them, recognising them, and taking them out again. */
module MagicUrl {
  import opened Options

  const MAX_ARGS: nat := 50
  const MAX_ARG_STRING: nat := 80
  const ULONG: nat := 0x1_0000_0000

  /** The value of an argument. A string of 79 characters is copied without its closing zero, so what it is depends on
      the memory behind it. An integer is kept as the unsigned number it is printed as; of a real number only the text
      is kept. */
  datatype Value = Text(text: string) | Unclosed(front: string) | Int(number: nat) | Real(digits: string)

  datatype Arg = Arg(id: nat, value: Value)

  // ----- strings -----

  /** The first place of a character, or the length. */
  function IndexOf(s: string, c: char): (i: nat)
    ensures i <= |s| && (i < |s| ==> s[i] == c) && forall k :: 0 <= k < i ==> s[k] != c
  {
    if s == [] || s[0] == c then 0 else 1 + IndexOf(s[1..], c)
  }

  /** The last place of a character before n. */
  function LastIn(s: string, c: char, n: nat): (i: Option<nat>)
    requires n <= |s|
    ensures i.Some? ==> i.value < n && s[i.value] == c && forall k :: i.value < k < n ==> s[k] != c
    ensures i.None? ==> forall k :: 0 <= k < n ==> s[k] != c
  {
    if n == 0 then None else if s[n - 1] == c then Some(n - 1) else LastIn(s, c, n - 1)
  }

  lemma {:induction false} IndexIs(a: string, c: char, b: string)
    requires c !in a
    ensures IndexOf(a + [c] + b, c) == |a|
  {
    var s := a + [c] + b;
    if a != [] {
      assert s[1..] == a[1..] + [c] + b;
      IndexIs(a[1..], c, b);
    }
  }

  lemma IndexNone(a: string, c: char)
    requires c !in a
    ensures IndexOf(a, c) == |a|
  {
  }

  // ----- numbers -----

  predicate IsDigit(c: char) { '0' <= c <= '9' }

  function DigitChar(d: nat): char
    requires d < 10
  {
    '0' + d as char
  }

  /** A number in decimal. */
  function Decimal(n: nat): string {
    if n < 10 then [DigitChar(n)] else Decimal(n / 10) + [DigitChar(n % 10)]
  }

  function Digits(s: string): nat {
    if s == [] then 0 else 10 * Digits(s[..|s| - 1]) + (s[|s| - 1] as int - '0' as int) % 10
  }

  lemma {:induction false} DecimalDigits(n: nat)
    ensures Decimal(n) != [] && Digits(Decimal(n)) == n && forall c <- Decimal(n) :: IsDigit(c)
  {
    if n < 10 {
      assert [DigitChar(n)][..0] == [];
      assert (DigitChar(n) as int - '0' as int) == n;
    } else {
      DecimalDigits(n / 10);
      var s, last := Decimal(n), DigitChar(n % 10);
      assert s[..|s| - 1] == Decimal(n / 10) && s[|s| - 1] == last;
      assert (last as int - '0' as int) == n % 10;
    }
  }

  predicate IsBlank(c: char) { c == ' ' || ('\t' <= c <= '\r') }

  function DigitSpan(s: string): (n: nat)
    ensures n <= |s| && (n < |s| ==> !IsDigit(s[n])) && forall k :: 0 <= k < n ==> IsDigit(s[k])
  {
    if s == [] || !IsDigit(s[0]) then 0 else 1 + DigitSpan(s[1..])
  }

  lemma {:induction false} DigitSpanIs(a: string, b: string)
    requires (forall c <- a :: IsDigit(c)) && (b == [] || !IsDigit(b[0]))
    ensures DigitSpan(a + b) == |a|
  {
    if a == [] {
      assert a + b == b;
    } else {
      assert (a + b)[1..] == a[1..] + b;
      DigitSpanIs(a[1..], b);
    }
  }

  /** An unsigned number: blanks and a sign may come first, and a number too large becomes the largest, whatever its
      sign. */
  function ScanUnsigned(s: string): (r: Option<(nat, string)>)
    ensures r.Some? ==> r.value.0 < ULONG && |r.value.1| < |s|
    decreases |s|
  {
    if s != [] && IsBlank(s[0]) then ScanUnsigned(s[1..])
    else
      var signed := s != [] && (s[0] == '+' || s[0] == '-');
      var t := if signed then s[1..] else s;
      var n := DigitSpan(t);
      if n == 0 then None
      else
        var v := Digits(t[..n]);
        Some((if v >= ULONG then ULONG - 1 else if signed && s[0] == '-' then (ULONG - v) % ULONG else v, t[n..]))
  }

  lemma ScansDecimal(n: nat, rest: string)
    requires n < ULONG && (rest == [] || !IsDigit(rest[0]))
    ensures ScanUnsigned(Decimal(n) + rest) == Some((n, rest))
  {
    DecimalDigits(n);
    var d, s := Decimal(n), Decimal(n) + rest;
    assert s[0] == d[0] && d[0] in d && IsDigit(d[0]);
    DigitSpanIs(d, rest);
    assert s[..|d|] == d && s[|d|..] == rest;
  }

  // ----- magic URLs -----

  /** Where the form arguments of a URL start, or its end. */
  function FormStart(url: string): (n: nat)
    ensures n <= |url|
  {
    IndexOf(url, '?')
  }

  /** The last star before the form, then arguments between delimiters up to it. */
  predicate IsMagic(url: string) {
    var form := FormStart(url);
    var star := LastIn(url, '*', form);
    star.Some? && star.value + 1 < |url| && url[star.value + 1] == '^' && url[form - 1] == '^' &&
    star.value + 1 != form - 1
  }

  function PrintArg(a: Arg): string {
    match a.value
    case Text(text) => "s" + Decimal(a.id) + "=" + text + "^"
    case Unclosed(front) => "s" + Decimal(a.id) + "=" + front + "^"
    case Int(number) => "i" + Decimal(a.id) + "=" + Decimal(number) + "^"
    case Real(digits) => "f" + Decimal(a.id) + "=" + digits + "^"
  }

  function PrintArgs(args: seq<Arg>): string {
    if args == [] then "" else PrintArg(args[0]) + PrintArgs(args[1..])
  }

  function ToMagic(url: string, args: seq<Arg>): string {
    if args == [] then url
    else
      var form := FormStart(url);
      url[..form] + (if IsMagic(url) then "" else "*^") + PrintArgs(args) + url[form..]
  }

  /** What the scanner remembers from one argument to the next. */
  datatype Scanned = Scanned(id: nat, text: string, number: nat, digits: string)

  /** Sets the argument with that id, or adds it; None when there is no room. */
  function SetArg(list: seq<Arg>, a: Arg): (r: Option<seq<Arg>>) {
    var i := Find(list, a.id, 0);
    if i == MAX_ARGS then None
    else if i < |list| then Some(list[i := a])
    else Some(list + [a])
  }

  /** The first place of an id, or the length. */
  function Find(list: seq<Arg>, id: nat, from: nat): (i: nat)
    requires from <= |list|
    ensures from <= i <= |list| && (i < |list| ==> list[i].id == id) && forall k :: from <= k < i ==> list[k].id != id
    decreases |list| - from
  {
    if from == |list| || list[from].id == id then from else Find(list, id, from + 1)
  }

  /** One argument: what is scanned, nothing changing where the text does not fit. */
  function ScanArg(s: string, st: Scanned): Scanned
    requires s != []
  {
    var id := ScanUnsigned(s[1..]);
    if id.None? then st
    else
      var rest := id.value.1;
      var st1 := st.(id := id.value.0);
      if rest == [] || rest[0] != '=' then st1
      else
        var body := rest[1..][..IndexOf(rest[1..], '^')];
        if s[0] == 's' then (if body == [] then st1 else st1.(text := body))
        else if s[0] == 'i' then
          var n := ScanUnsigned(rest[1..]);
          if n.None? then st1 else st1.(number := n.value.0)
        else st1.(digits := body)
  }

  /** A string as the list keeps it: at most 79 characters are copied. */
  function Kept(text: string): Value {
    if |text| < MAX_ARG_STRING - 1 then Text(text) else Unclosed(text[..MAX_ARG_STRING - 1])
  }

  function ArgOf(kind: char, st: Scanned): Option<Arg> {
    if kind == 's' then Some(Arg(st.id, Kept(st.text)))
    else if kind == 'i' then Some(Arg(st.id, Int(st.number)))
    else if kind == 'f' then Some(Arg(st.id, Real(st.digits)))
    else None
  }

  /** The arguments set, whether all was well, and the text behind them. */
  datatype Taken = Taken(args: seq<Arg>, ok: bool, rest: string)

  /** A string argument too long for the buffer it is scanned into. */
  predicate Overruns(s: string) {
    s != [] && s[0] == 's' &&
    var id := ScanUnsigned(s[1..]);
    id.Some? && id.value.1 != [] && id.value.1[0] == '=' && IndexOf(id.value.1[1..], '^') >= MAX_ARG_STRING
  }

  /** The arguments from a place on, up to the form n characters further; at least one is looked for, even where the form
      has begun.  None: a string overruns its buffer, or no delimiter is left and the search for one leads nowhere. */
  function TakeArgs(s: string, n: int, list: seq<Arg>, st: Scanned, ok: bool): (r: Option<Taken>)
    decreases |s|
  {
    var known := s != [] && (s[0] == 's' || s[0] == 'i' || s[0] == 'f');
    var st1 := if known then ScanArg(s, st) else st;
    var put := if known then SetArg(list, ArgOf(s[0], st1).value) else None;
    var list1, ok1 := if put.Some? then put.value else list, ok && put.Some?;
    var k := IndexOf(s, '^');
    if k == |s| || Overruns(s) then None
    else if k + 1 >= n then Some(Taken(list1, ok1, s[k + 1..]))
    else TakeArgs(s[k + 1..], n - (k + 1), list1, st1, ok1)
  }

  /** What taking a magic URL apart gives; Undefined where the program would leave the text or its buffer. */
  datatype Result = Unpacked(url: string, args: seq<Arg>, ok: bool) | Undefined

  /** No star among the form arguments. */
  predicate PlainForm(url: string) { '*' !in url[FormStart(url)..] }

  /** Exactly then the last star of all, where the arguments are taken to start, is the last before the form, which
      decides whether there are any. */
  lemma LastPlain(url: string)
    ensures LastIn(url, '*', |url|) == LastIn(url, '*', FormStart(url)) <==> PlainForm(url)
  {
    if PlainForm(url) {
      LastBack(url, '*', FormStart(url), |url|);
    }
  }

  lemma {:induction false} LastBack(s: string, c: char, m: nat, n: nat)
    requires m <= n <= |s| && c !in s[m..]
    ensures LastIn(s, c, n) == LastIn(s, c, m)
    decreases n
  {
    if m < n {
      assert s[n - 1] == s[m..][n - 1 - m];
      LastBack(s, c, m, n - 1);
    }
  }

  function FromMagic(murl: string, list: seq<Arg>, st: Scanned): Result {
    if !IsMagic(murl) then Unpacked(murl, list, false)
    else
      var star := LastIn(murl, '*', |murl|).value;
      if star + 2 > |murl| then Undefined
      else
        var r := TakeArgs(murl[star + 2..], FormStart(murl) - (star + 2), list, st, true);
        if r.None? then Undefined else Unpacked(murl[..star] + r.value.rest, r.value.args, r.value.ok)
  }

  // ----- round trip -----

  predicate Safe(s: string) { '^' !in s && '?' !in s && '*' !in s }

  /** An integer or string argument that a URL can carry: the string not empty, within its buffer, and free of the
      characters that mark arguments and forms. */
  predicate ArgOk(a: Arg) {
    a.id < ULONG &&
    match a.value
    case Text(text) => text != "" && |text| <= 78 && Safe(text)
    case Int(number) => number < ULONG
    case Unclosed(_) => false
    case Real(_) => false
  }

  function ValueText(a: Arg): string
    requires ArgOk(a)
  {
    if a.value.Text? then a.value.text else Decimal(a.value.number)
  }

  /** The printed argument without its kind and its closing delimiter. */
  function Body(a: Arg): string
    requires ArgOk(a)
  {
    Decimal(a.id) + "=" + ValueText(a)
  }

  lemma DecimalSafe(n: nat)
    ensures Safe(Decimal(n))
  {
    DecimalDigits(n);
  }

  lemma BodySafe(a: Arg)
    requires ArgOk(a)
    ensures Safe(Body(a))
    ensures PrintArg(a) == [if a.value.Text? then 's' else 'i'] + Body(a) + "^"
  {
    DecimalSafe(a.id);
    if a.value.Int? {
      DecimalSafe(a.value.number);
    }
    hide Decimal;
  }

  function KindOf(a: Arg): char { if a.value.Text? then 's' else 'i' }

  lemma Nested(a: string, b: string, c: string, d: string, e: string, f: string)
    ensures a + b + c + d + e + f == a + (b + (c + (d + (e + f))))
  {
  }

  lemma PrintNested(a: Arg, more: string)
    requires ArgOk(a)
    ensures PrintArg(a) + more == [KindOf(a)] + (Decimal(a.id) + ("=" + (ValueText(a) + ("^" + more))))
  {
    hide Decimal;
    Nested([KindOf(a)], Decimal(a.id), "=", ValueText(a), "^", more);
  }

  lemma ScanStep(s: string, st: Scanned, id: nat, value: string)
    requires s != [] && ScanUnsigned(s[1..]) == Some((id, "=" + value))
    ensures var body := value[..IndexOf(value, '^')];
            s[0] == 's' && body != [] ==> ScanArg(s, st) == st.(id := id, text := body)
    ensures s[0] == 'i' && ScanUnsigned(value).Some? ==>
              ScanArg(s, st) == st.(id := id, number := ScanUnsigned(value).value.0)
  {
    assert ("=" + value)[1..] == value;
    hide ScanUnsigned, IndexOf;
  }

  /** Where a string overruns its buffer, in terms of what stands behind its id. */
  lemma OverrunsAt(s: string, id: nat, value: string)
    requires s != [] && ScanUnsigned(s[1..]) == Some((id, "=" + value))
    ensures Overruns(s) <==> s[0] == 's' && IndexOf(value, '^') >= MAX_ARG_STRING
  {
    assert ("=" + value)[1..] == value;
    hide ScanUnsigned, IndexOf;
  }

  lemma CutText(text: string, more: string)
    requires '^' !in text
    ensures var value := text + ("^" + more); IndexOf(value, '^') == |text| && value[..IndexOf(value, '^')] == text
  {
    IndexIs(text, '^', more);
    assert text + ("^" + more) == text + "^" + more;
  }

  /** Scanning a printed argument gives the argument. */
  lemma ScansArg(a: Arg, more: string, st: Scanned)
    requires ArgOk(a)
    ensures var s := PrintArg(a) + more;
            s != [] && s[0] == KindOf(a) && ArgOf(s[0], ScanArg(s, st)) == Some(a) && !Overruns(s)
  {
    var s, rest, value := PrintArg(a) + more, "=" + (ValueText(a) + ("^" + more)), ValueText(a) + ("^" + more);
    hide ScanArg, ScanUnsigned, Decimal, PrintArg, IndexOf;
    PrintNested(a, more);
    assert s[1..] == Decimal(a.id) + rest;
    ScansDecimal(a.id, rest);
    ScanStep(s, st, a.id, value);
    OverrunsAt(s, a.id, value);
    if a.value.Int? {
      ScansDecimal(a.value.number, "^" + more);
    } else {
      CutText(a.value.text, more);
    }
  }

  /** The first delimiter is the one that closes the argument. */
  lemma ClosesArg(a: Arg, more: string)
    requires ArgOk(a)
    ensures |PrintArg(a)| >= 1 && IndexOf(PrintArg(a) + more, '^') == |PrintArg(a)| - 1
  {
    hide Decimal, IndexOf;
    BodySafe(a);
    var front := [KindOf(a)] + Body(a);
    assert PrintArg(a) + more == front + "^" + more;
    IndexIs(front, '^', more);
  }

  /** The list with all the arguments set, in order; None when one finds no room. */
  function Override(list: seq<Arg>, args: seq<Arg>): Option<seq<Arg>>
    decreases args
  {
    if args == [] then Some(list)
    else
      var r := SetArg(list, args[0]);
      if r.None? then None else Override(r.value, args[1..])
  }

  predicate ArgsOk(args: seq<Arg>) { forall i :: 0 <= i < |args| ==> ArgOk(args[i]) }

  lemma LastDelimiter(args: seq<Arg>)
    requires args != [] && ArgsOk(args)
    ensures var p := PrintArgs(args); p != "" && p[|p| - 1] == '^'
    decreases |args|
  {
    BodySafe(args[0]);
    if |args| > 1 {
      LastDelimiter(args[1..]);
    } else {
      assert PrintArgs(args) == PrintArg(args[0]) + "";
    }
  }

  lemma Pieces(x: string, y: string, z: string)
    ensures x + y + z == x + (y + z) && (x + y + z)[|x|..] == y + z
  {
  }

  /** What the first argument does. */
  lemma TakeFirst(s: string, n: int, a: Arg, list: seq<Arg>, st: Scanned)
    requires s != [] && (s[0] == 's' || s[0] == 'i') && ArgOf(s[0], ScanArg(s, st)) == Some(a) && !Overruns(s)
    ensures var k, put := IndexOf(s, '^'), SetArg(list, a);
            var list1 := if put.Some? then put.value else list;
            TakeArgs(s, n, list, st, true) ==
              if k == |s| then None
              else if k + 1 >= n then Some(Taken(list1, put.Some?, s[k + 1..]))
              else TakeArgs(s[k + 1..], n - (k + 1), list1, ScanArg(s, st), put.Some?)
  {
    hide ScanArg, SetArg, ArgOf, IndexOf, Overruns;
  }

  lemma {:induction false} TakesAll(args: seq<Arg>, form: string, list: seq<Arg>, st: Scanned)
    requires args != [] && ArgsOk(args) && Override(list, args).Some?
    ensures var p := PrintArgs(args);
            0 < |p| && p[|p| - 1] == '^' &&
            TakeArgs(p + form, |p|, list, st, true) == Some(Taken(Override(list, args).value, true, form))
    decreases |args|
  {
    hide PrintArg, IndexOf, ScanArg, SetArg, Decimal, TakeArgs, ArgOf, ArgOk;
    LastDelimiter(args);
    var a, p, tail := args[0], PrintArgs(args), PrintArgs(args[1..]);
    assert |args| == 1 ==> tail == "";
    assert p == PrintArg(a) + tail;
    if |args| > 1 {
      LastDelimiter(args[1..]);
    }
    hide PrintArgs;
    var s := p + form;
    Pieces(PrintArg(a), tail, form);
    ScansArg(a, tail + form, st);
    ClosesArg(a, tail + form);
    var next := |PrintArg(a)|;
    TakeFirst(s, |p|, a, list, st);
    if |args| > 1 {
      TakesAll(args[1..], form, SetArg(list, a).value, ScanArg(s, st));
    }
  }

  lemma {:induction false} ArgsSafe(args: seq<Arg>)
    requires ArgsOk(args)
    ensures '?' !in PrintArgs(args) && '*' !in PrintArgs(args)
  {
    hide Decimal, PrintArg;
    if args != [] {
      BodySafe(args[0]);
      ArgsSafe(args[1..]);
    }
  }

  lemma {:induction false} LastIs(s: string, c: char, n: nat, i: nat)
    requires i < n <= |s| && s[i] == c && forall k :: i < k < n ==> s[k] != c
    ensures LastIn(s, c, n) == Some(i)
  {
    if i < n - 1 {
      LastIs(s, c, n - 1, i);
    }
  }

  lemma FormFound(a: string, form: string)
    requires '?' !in a && (form == "" || form[0] == '?')
    ensures FormStart(a + form) == |a|
  {
    if form == "" {
      assert a + form == a;
      IndexNone(a, '?');
    } else {
      assert a + form == a + "?" + form[1..];
      IndexIs(a, '?', form[1..]);
    }
  }

  /** The parts of a magic URL: what stands before the star, the arguments, the form. */
  lemma MagicParts(front: string, args: string, form: string)
    requires '?' !in front && '?' !in args && '*' !in args && '*' !in form
    requires form == "" || form[0] == '?'
    requires args != "" && args[|args| - 1] == '^'
    ensures var m := front + "*^" + args + form;
            FormStart(m) == |front| + 2 + |args| && LastIn(m, '*', FormStart(m)) == Some(|front|) && IsMagic(m) &&
            PlainForm(m) && m[..|front|] == front && m[|front| + 2..] == args + form && m[FormStart(m)..] == form
  {
    var a := front + "*^" + args;
    var m := a + form;
    FormFound(a, form);
    assert m[|front|] == '*' && m[|front| + 1] == '^';
    forall k | |front| < k < |a|
      ensures m[k] != '*'
    {
      if k >= |front| + 2 {
        assert m[k] == args[k - |front| - 2];
      }
    }
    LastIs(m, '*', |a|, |front|);
    assert m[|a| - 1] == args[|args| - 1];
    hide LastIn, IndexOf;
  }

  lemma FromParts(front: string, p: string, form: string, list: seq<Arg>, st: Scanned, args: seq<Arg>)
    requires '?' !in front && '?' !in p && '*' !in p && '*' !in form
    requires form == "" || form[0] == '?'
    requires p != "" && p[|p| - 1] == '^' && TakeArgs(p + form, |p|, list, st, true) == Some(Taken(args, true, form))
    ensures FromMagic(front + "*^" + p + form, list, st) == Unpacked(front + form, args, true)
  {
    hide TakeArgs, IndexOf, LastIn, FormStart, PlainForm;
    MagicParts(front, p, form);
    LastPlain(front + "*^" + p + form);
    hide IsMagic;
  }

  lemma UrlParts(url: string)
    ensures var n := FormStart(url);
            '?' !in url[..n] && (url[n..] == "" || url[n..][0] == '?') && url[..n] + url[n..] == url
  {
  }

  /** Putting arguments into a URL and taking them out again gives the URL back and sets exactly those arguments, if and
      only if there is no star in the form. */
  lemma MagicRoundTrip(url: string, args: seq<Arg>, list: seq<Arg>, st: Scanned)
    requires !IsMagic(url) && args != [] && ArgsOk(args) && Override(list, args).Some?
    ensures FromMagic(ToMagic(url, args), list, st) == Unpacked(url, Override(list, args).value, true) <==> PlainForm(url)
  {
    var n := FormStart(url);
    var front, form := url[..n], url[n..];
    UrlParts(url);
    hide TakeArgs, PrintArgs, Override, IndexOf, LastIn, FormStart, FromMagic, IsMagic, ArgsOk;
    ArgsSafe(args);
    LastDelimiter(args);
    if '*' in form {
      StarElsewhere(front, PrintArgs(args), form, list, st);
    } else {
      TakesAll(args, form, list, st);
      FromParts(front, PrintArgs(args), form, list, st, Override(list, args).value);
    }
  }

  // ----- what setting arguments means -----

  function Lookup(list: seq<Arg>, id: nat): Option<Value> {
    var i := Find(list, id, 0);
    if i < |list| then Some(list[i].value) else None
  }

  lemma FindIs(list: seq<Arg>, id: nat, i: nat)
    requires i <= |list| && (i < |list| ==> list[i].id == id) && forall k :: 0 <= k < i ==> list[k].id != id
    ensures Find(list, id, 0) == i
  {
    var j := Find(list, id, 0);
    hide Find;
  }

  lemma SetLooks(list: seq<Arg>, a: Arg, id: nat)
    requires SetArg(list, a).Some?
    ensures Lookup(SetArg(list, a).value, id) == if id == a.id then Some(a.value) else Lookup(list, id)
  {
    var i, r := Find(list, a.id, 0), SetArg(list, a).value;
    if id == a.id {
      FindIs(r, id, i);
    } else {
      var j := Find(list, id, 0);
      FindIs(r, id, if j < |list| then j else |r|);
    }
  }

  /** The value the arguments give an id, the last one if there are several. */
  function Given(args: seq<Arg>, id: nat): Option<Value> {
    if args == [] then None
    else
      var later := Given(args[1..], id);
      if later.Some? then later else if args[0].id == id then Some(args[0].value) else None
  }

  /** After the arguments are set, each id of theirs has the value they give it, and every other id its old value. */
  lemma {:induction false} OverrideLooks(list: seq<Arg>, args: seq<Arg>, id: nat)
    requires Override(list, args).Some?
    ensures Lookup(Override(list, args).value, id) ==
            if Given(args, id).Some? then Given(args, id) else Lookup(list, id)
    decreases |args|
  {
    if args != [] {
      SetLooks(list, args[0], id);
      OverrideLooks(SetArg(list, args[0]).value, args[1..], id);
      hide Lookup, SetArg;
    }
  }

  // ----- and otherwise it does not -----

  /** Arguments taken from anywhere but behind the star put in: the URL given back still holds that star. */
  lemma StarElsewhere(front: string, p: string, form: string, list: seq<Arg>, st: Scanned)
    requires form == "" || form[0] == '?'
    requires '*' in p || '*' in form
    ensures var r := FromMagic(front + "*^" + p + form, list, st); r.Undefined? || !r.ok || r.url != front + form
  {
    hide TakeArgs, IndexOf, FormStart, IsMagic;
    var m := front + "*^" + p + form;
    var star := LastIn(m, '*', |m|);
    assert m[|front|] == '*';
    StarBehind(front + "*^", p, form);
    hide LastIn;
    var r := FromMagic(m, list, st);
    if r.Unpacked? && r.ok {
      assert r.url[|front|] == '*';
      assert form != "" ==> (front + form)[|front|] == '?';
    }
  }

  lemma StarBehind(a: string, p: string, form: string)
    requires '*' in p || '*' in form
    ensures var m := a + p + form; LastIn(m, '*', |m|).Some? && LastIn(m, '*', |m|).value >= |a|
  {
    var m := a + p + form;
    if '*' in p {
      var i :| 0 <= i < |p| && p[i] == '*';
      assert m[|a| + i] == '*';
    } else {
      var i :| 0 <= i < |form| && form[i] == '*';
      assert m[|a + p| + i] == '*';
    }
  }

  lemma PrintedText(id: nat, text: string, more: string)
    ensures var s := PrintArg(Arg(id, Text(text))) + more; s == "s" + (Decimal(id) + ("=" + (text + ("^" + more))))
  {
    hide Decimal;
    Nested("s", Decimal(id), "=", text, "^", more);
  }

  /** Scanning a printed string that may hold anything. */
  lemma ScansText(id: nat, text: string, more: string, st: Scanned)
    requires id < ULONG
    ensures var s := PrintArg(Arg(id, Text(text))) + more;
            var value := text + ("^" + more);
            var body := value[..IndexOf(value, '^')];
            && s != [] && s[0] == 's' && ScanArg(s, st) == st.(id := id, text := if body == [] then st.text else body)
            && (Overruns(s) <==> IndexOf(value, '^') >= MAX_ARG_STRING)
  {
    var s, rest, value := PrintArg(Arg(id, Text(text))) + more, "=" + (text + ("^" + more)), text + ("^" + more);
    hide ScanArg, ScanUnsigned, Decimal, PrintArg, IndexOf;
    PrintedText(id, text, more);
    assert s[1..] == Decimal(id) + rest;
    ScansDecimal(id, rest);
    ScanHead(s, st, id, value);
    OverrunsAt(s, id, value);
  }

  lemma ScanHead(s: string, st: Scanned, id: nat, value: string)
    requires s != [] && s[0] == 's' && ScanUnsigned(s[1..]) == Some((id, "=" + value))
    ensures var body := value[..IndexOf(value, '^')];
            ScanArg(s, st) == st.(id := id, text := if body == [] then st.text else body)
  {
    assert ("=" + value)[1..] == value;
    hide ScanUnsigned, IndexOf;
  }

  lemma {:induction false} NotOkStays(s: string, n: int, list: seq<Arg>, st: Scanned)
    ensures var r := TakeArgs(s, n, list, st, false); r.Some? ==> !r.value.ok
    decreases |s|
  {
    hide ScanArg, SetArg;
    var k := IndexOf(s, '^');
    if k < |s| && k + 1 < n {
      var known := s != [] && (s[0] == 's' || s[0] == 'i' || s[0] == 'f');
      var st1 := if known then ScanArg(s, st) else st;
      var put := if known then SetArg(list, ArgOf(s[0], st1).value) else None;
      NotOkStays(s[k + 1..], n - (k + 1), if put.Some? then put.value else list, st1);
    }
  }

  /** The value of an id holds no delimiter. */
  predicate Clean(list: seq<Arg>, id: nat) {
    var v := Lookup(list, id); v.Some? && v.value.Text? ==> '^' !in v.value.text
  }

  lemma ScansClean(s: string, st: Scanned)
    requires s != [] && '^' !in st.text
    ensures '^' !in ScanArg(s, st).text
  {
    hide ScanUnsigned;
  }

  lemma SetsClean(list: seq<Arg>, kind: char, st: Scanned, id: nat)
    requires '^' !in st.text && Clean(list, id) && ArgOf(kind, st).Some?
    ensures var r := SetArg(list, ArgOf(kind, st).value); r.Some? ==> Clean(r.value, id)
  {
    var a := ArgOf(kind, st).value;
    if SetArg(list, a).Some? {
      SetLooks(list, a, id);
    }
    hide SetArg, Lookup;
  }

  /** Scanning never puts a delimiter into a value. */
  lemma {:induction false} TakesClean(s: string, n: int, list: seq<Arg>, st: Scanned, ok: bool, id: nat)
    requires '^' !in st.text && Clean(list, id)
    ensures var r := TakeArgs(s, n, list, st, ok); r.Some? ==> Clean(r.value.args, id)
    decreases |s|
  {
    hide ScanArg, SetArg, Clean;
    var known := s != [] && (s[0] == 's' || s[0] == 'i' || s[0] == 'f');
    if known {
      ScansClean(s, st);
      SetsClean(list, s[0], ScanArg(s, st), id);
    }
    var st1 := if known then ScanArg(s, st) else st;
    var put := if known then SetArg(list, ArgOf(s[0], st1).value) else None;
    var k := IndexOf(s, '^');
    if k < |s| && k + 1 < n {
      TakesClean(s[k + 1..], n - (k + 1), if put.Some? then put.value else list, st1, ok && put.Some?, id);
    }
  }

  /** A printed string with a delimiter in it is not what is scanned. */
  lemma DelimiterLost(id: nat, text: string, form: string, n: int, list: seq<Arg>, st: Scanned)
    requires id < ULONG && '^' in text && '^' !in st.text
    ensures var r := TakeArgs(PrintArg(Arg(id, Text(text))) + form, n, list, st, true);
            r.Some? && r.value.ok ==> Lookup(r.value.args, id) != Some(Text(text))
  {
    var s := PrintArg(Arg(id, Text(text))) + form;
    ScansText(id, text, form, st);
    ScansClean(s, st);
    hide ScanArg, SetArg, Lookup, PrintArg;
    var st1 := ScanArg(s, st);
    var a := Arg(id, Kept(st1.text));
    assert ArgOf(s[0], st1) == Some(a);
    if Overruns(s) {
      return;
    }
    TakeFirst(s, n, a, list, st);
    hide TakeArgs, IndexOf, ArgOf, Overruns;
    var put := SetArg(list, a);
    var k := IndexOf(s, '^');
    if put.None? {
      if k < |s| && k + 1 < n {
        NotOkStays(s[k + 1..], n - (k + 1), list, st1);
      }
    } else {
      SetLooks(list, a, id);
      assert Clean(put.value, id);
      if k < |s| && k + 1 < n {
        TakesClean(s[k + 1..], n - (k + 1), put.value, st1, true, id);
      }
    }
  }

  lemma TextInParts(front: string, id: nat, text: string, form: string)
    requires '*' !in text && '*' !in form
    ensures var m := front + "*^" + PrintArg(Arg(id, Text(text))) + form;
            LastIn(m, '*', |m|) == Some(|front|) && m[|front| + 2..] == PrintArg(Arg(id, Text(text))) + form &&
            m[..|front|] == front
  {
    DecimalSafe(id);
    var p := PrintArg(Arg(id, Text(text)));
    assert '*' !in p by { hide Decimal; }
    hide PrintArg;
    var m := front + "*^" + p + form;
    assert m[|front|] == '*' && m[|front| + 1] == '^' && m[|front| + 2..] == p + form;
    forall k | |front| < k < |m|
      ensures m[k] != '*'
    {
      if k >= |front| + 2 {
        assert m[k] == (p + form)[k - |front| - 2];
      }
    }
    LastIs(m, '*', |m|, |front|);
  }

  lemma NotMagic(a: string, b: string)
    requires '?' !in a && a != "" && a[|a| - 1] != '^'
    ensures !IsMagic(a + "?" + b)
  {
    IndexIs(a, '?', b);
    hide LastIn;
  }

  lemma TextSplit(front: string, id: nat, text: string, form: string, k: nat)
    requires k < |text| && text[k] == '?'
    ensures front + "*^" + PrintArg(Arg(id, Text(text))) + form ==
            front + ("*^s" + Decimal(id) + "=") + text[..k] + "?" + (text[k + 1..] + "^" + form)
  {
    hide Decimal;
    assert text == text[..k] + "?" + text[k + 1..];
    Regroup(front, Decimal(id), text[..k], text[k + 1..], form);
  }

  lemma Regroup(front: string, d: string, x: string, y: string, form: string)
    ensures front + "*^" + ("s" + d + "=" + (x + "?" + y) + "^") + form ==
            front + ("*^s" + d + "=") + x + "?" + (y + "^" + form)
  {
  }

  /** A form start inside a string, with no delimiter before it: the URL is not even magic. */
  lemma FormInText(front: string, id: nat, text: string, form: string)
    requires '?' !in front && '?' in text && '^' !in text
    ensures !IsMagic(front + "*^" + PrintArg(Arg(id, Text(text))) + form)
  {
    var k := IndexOf(text, '?');
    TextSplit(front, id, text, form, k);
    DecimalSafe(id);
    hide Decimal, IndexOf, PrintArg, IsMagic;
    var head := "*^s" + Decimal(id) + "=";
    var a := front + head + text[..k];
    assert head[|head| - 1] == '=';
    assert a[|a| - 1] == if k == 0 then '=' else text[k - 1];
    NotMagic(a, text[k + 1..] + "^" + form);
  }

  /** An empty string is not scanned: the argument gets what was scanned before it. */
  lemma EmptyLost(front: string, id: nat, form: string, list: seq<Arg>, st: Scanned)
    requires '?' !in front && '*' !in form && (form == "" || form[0] == '?') && id < ULONG && st.text == "x"
    requires SetArg(list, Arg(id, Text(""))).Some?
    ensures FromMagic(front + "*^" + PrintArg(Arg(id, Text(""))) + form, list, st) ==
            Unpacked(front + form, SetArg(list, Arg(id, Text("x"))).value, true)
  {
    var p := PrintArg(Arg(id, Text("")));
    DecimalSafe(id);
    assert '?' !in p && '*' !in p && '^' !in p[..|p| - 1] && p[|p| - 1] == '^' by { hide Decimal; }
    ScansText(id, "", form, st);
    var s := p + form;
    assert p == p[..|p| - 1] + "^";
    assert s == p[..|p| - 1] + "^" + form;
    IndexIs(p[..|p| - 1], '^', form);
    assert s[|p|..] == form;
    assert "" + ("^" + form) == "" + "^" + form;
    IndexIs("", '^', form);
    hide ScanArg, PrintArg, FromMagic, IndexOf, TakeArgs;
    TakeFirst(s, |p|, Arg(id, Text("x")), list, st);
    FromParts(front, p, form, list, st, SetArg(list, Arg(id, Text("x"))).value);
  }

  /** A printed string ends at its first delimiter, if it holds none. */
  lemma PrintedEnd(id: nat, text: string, form: string)
    requires '^' !in text
    ensures var p := PrintArg(Arg(id, Text(text))); |p| > 0 && IndexOf(p + form, '^') == |p| - 1
    ensures Safe(text) ==> '?' !in PrintArg(Arg(id, Text(text)))
  {
    DecimalSafe(id);
    hide Decimal, IndexOf;
    var body := "s" + Decimal(id) + "=" + text;
    assert '^' !in body;
    assert PrintArg(Arg(id, Text(text))) + form == body + "^" + form;
    IndexIs(body, '^', form);
  }

  /** Scanning a printed string of 79 characters or more: it overruns its buffer, or is kept unclosed. */
  lemma LongTaken(id: nat, text: string, form: string, list: seq<Arg>, st: Scanned)
    requires id < ULONG && '^' !in text && |text| >= MAX_ARG_STRING - 1
    ensures var p := PrintArg(Arg(id, Text(text)));
            var r := TakeArgs(p + form, |p|, list, st, true);
            r.Some? && r.value.ok ==> Lookup(r.value.args, id) != Some(Text(text))
  {
    hide PrintArg, ScanArg, Lookup, SetArg, IndexOf, Overruns;
    var p := PrintArg(Arg(id, Text(text)));
    var s := p + form;
    PrintedEnd(id, text, form);
    ScansText(id, text, form, st);
    CutText(text, form);
    if !Overruns(s) {
      var a := Arg(id, Kept(text));
      TakeFirst(s, |p|, a, list, st);
      hide TakeArgs;
      if SetArg(list, a).Some? {
        SetLooks(list, a, id);
      }
    }
  }

  /** A string of 79 characters or more does not come back. */
  lemma LongLost(front: string, id: nat, text: string, form: string, list: seq<Arg>, st: Scanned)
    requires '?' !in front && '*' !in form && (form == "" || form[0] == '?')
    requires id < ULONG && Safe(text) && |text| >= MAX_ARG_STRING - 1
    ensures var r := FromMagic(front + "*^" + PrintArg(Arg(id, Text(text))) + form, list, st);
            r.Unpacked? && r.ok ==> Lookup(r.args, id) != Some(Text(text))
  {
    hide PrintArg, IsMagic, FormStart, LastIn, TakeArgs, Lookup, FromMagic, Overruns, Kept;
    var p := PrintArg(Arg(id, Text(text)));
    var m := front + "*^" + p + form;
    TextInParts(front, id, text, form);
    PrintedEnd(id, text, form);
    FormFound(front + "*^" + p, form);
    LongTaken(id, text, form, list, st);
    TakenAt(m, |front|, p + form, list, st);
  }

  ghost predicate Returns(url: string, a: Arg, list: seq<Arg>, st: Scanned)
    requires SetArg(list, a).Some?
  {
    FromMagic(ToMagic(url, [a]), list, st) == Unpacked(url, SetArg(list, a).value, true)
  }

  /** A string goes into a URL and comes back, whatever the scanner was left with, exactly when there is no star in the
      form and the string is not empty, has at most 78 characters and holds none of the three marks. */
  lemma TextRoundTripIff(url: string, id: nat, text: string, list: seq<Arg>)
    requires !IsMagic(url) && id < ULONG && SetArg(list, Arg(id, Text(text))).Some?
    ensures (forall st :: Returns(url, Arg(id, Text(text)), list, st)) <==>
            PlainForm(url) && text != "" && |text| <= 78 && Safe(text)
  {
    var a := Arg(id, Text(text));
    if PlainForm(url) && text != "" && |text| <= 78 && Safe(text) {
      forall st
        ensures Returns(url, a, list, st)
      {
        OneArg(a, list);
        MagicRoundTrip(url, [a], list, st);
      }
    } else {
      var st := Scanned(0, if text == "" then "x" else "", 0, "");
      TextFails(url, id, text, list, st);
      assert !Returns(url, a, list, st);
    }
  }

  lemma OneArg(a: Arg, list: seq<Arg>)
    ensures PrintArgs([a]) == PrintArg(a) && Override(list, [a]) == SetArg(list, a)
  {
    assert [a][1..] == [];
    assert PrintArg(a) + "" == PrintArg(a);
    hide PrintArg, SetArg;
  }

  lemma OneArgMagic(url: string, a: Arg)
    requires !IsMagic(url)
    ensures ToMagic(url, [a]) == url[..FormStart(url)] + "*^" + PrintArg(a) + url[FormStart(url)..]
  {
    OneArg(a, []);
    hide PrintArg, PrintArgs, IsMagic, FormStart;
  }

  lemma TextFails(url: string, id: nat, text: string, list: seq<Arg>, st: Scanned)
    requires !IsMagic(url) && id < ULONG && SetArg(list, Arg(id, Text(text))).Some?
    requires !(PlainForm(url) && text != "" && |text| <= 78 && Safe(text)) && st.text == if text == "" then "x" else ""
    ensures !Returns(url, Arg(id, Text(text)), list, st)
  {
    var n := FormStart(url);
    var front, form, a := url[..n], url[n..], Arg(id, Text(text));
    UrlParts(url);
    OneArgMagic(url, a);
    hide PrintArg, IsMagic, FormStart, SetArg, ToMagic, FromMagic;
    if '*' in form {
      StarElsewhere(front, PrintArg(a), form, list, st);
    } else if '*' in text {
      StarPrinted(id, text);
      StarElsewhere(front, PrintArg(a), form, list, st);
    } else if '^' in text {
      DelimiterFails(front, id, text, form, list, st);
      SetLooks(list, a, id);
    } else if '?' in text {
      FormInText(front, id, text, form);
      NotMagicFails(front + "*^" + PrintArg(a) + form, list, st);
    } else if text == "" {
      EmptyLost(front, id, form, list, st);
      EmptyDiffers(list, id);
    } else {
      LongLost(front, id, text, form, list, st);
      SetLooks(list, a, id);
    }
  }

  lemma NotMagicFails(m: string, list: seq<Arg>, st: Scanned)
    requires !IsMagic(m)
    ensures FromMagic(m, list, st) == Unpacked(m, list, false)
  {
  }

  lemma EmptyDiffers(list: seq<Arg>, id: nat)
    requires SetArg(list, Arg(id, Text(""))).Some?
    ensures SetArg(list, Arg(id, Text("x"))).Some?
    ensures SetArg(list, Arg(id, Text("x"))) != SetArg(list, Arg(id, Text("")))
  {
    SetLooks(list, Arg(id, Text("")), id);
    SetLooks(list, Arg(id, Text("x")), id);
  }

  lemma DelimiterFails(front: string, id: nat, text: string, form: string, list: seq<Arg>, st: Scanned)
    requires id < ULONG && '^' in text && '^' !in st.text && '*' !in text && '*' !in form
    ensures var r := FromMagic(front + "*^" + PrintArg(Arg(id, Text(text))) + form, list, st);
            r.Unpacked? && r.ok ==> Lookup(r.args, id) != Some(Text(text))
  {
    hide PrintArg, IsMagic, FormStart, LastIn, TakeArgs, Lookup, FromMagic, Overruns, Kept;
    var p := PrintArg(Arg(id, Text(text)));
    var m := front + "*^" + p + form;
    TextInParts(front, id, text, form);
    DelimiterLost(id, text, form, FormStart(m) - (|front| + 2), list, st);
    TakenAt(m, |front|, p + form, list, st);
  }

  lemma TakenAt(m: string, star: nat, rest: string, list: seq<Arg>, st: Scanned)
    requires LastIn(m, '*', |m|) == Some(star) && star + 2 <= |m| && m[star + 2..] == rest
    ensures var r := FromMagic(m, list, st);
            var taken := TakeArgs(rest, FormStart(m) - (star + 2), list, st, true);
            r.Unpacked? && r.ok ==> taken.Some? && r.args == taken.value.args && taken.value.ok
  {
    hide IsMagic, FormStart, LastIn, TakeArgs;
  }

  lemma Inside(x: string, y: string, z: string, c: char)
    requires c in y
    ensures c in x + y + z
  {
    var i :| 0 <= i < |y| && y[i] == c;
    assert (x + y + z)[|x| + i] == c;
  }

  lemma StarPrinted(id: nat, text: string)
    requires '*' in text
    ensures '*' in PrintArg(Arg(id, Text(text)))
  {
    hide Decimal;
    Inside("s" + Decimal(id) + "=", text, "^", '*');
  }

  lemma {:induction false} IndexKept(u: string, c: char, v: string)
    requires c in u
    ensures IndexOf(u + v, c) == IndexOf(u, c)
  {
    if u[0] != c {
      assert (u + v)[1..] == u[1..] + v;
      IndexKept(u[1..], c, v);
    }
  }

  lemma {:induction false} LastKept(u: string, c: char, v: string, n: nat)
    requires n <= |u|
    ensures LastIn(u + v, c, n) == LastIn(u, c, n)
  {
    if n > 0 {
      LastKept(u, c, v, n - 1);
    }
  }

  // ----- exactly when the program leaves its text or its buffer -----

  /** An argument is looked for here: at the start, or behind a delimiter before the form. */
  predicate ArgAt(s: string, n: int, j: nat) { j <= |s| && (j == 0 || (j < n && s[j - 1] == '^')) }

  ghost predicate SomeOverruns(s: string, n: int) {
    exists j: nat :: ArgAt(s, n, j) && Overruns(s[j..])
  }

  lemma OverrunsLater(s: string, n: int, k: nat)
    requires k < |s| && s[k] == '^' && (forall i :: 0 <= i < k ==> s[i] != '^') && k + 1 < n
    ensures SomeOverruns(s, n) <==> Overruns(s) || SomeOverruns(s[k + 1..], n - (k + 1))
  {
    hide Overruns;
    var t := s[k + 1..];
    if Overruns(s) {
      assert s[0..] == s && ArgAt(s, n, 0);
    }
    if j: nat :| ArgAt(t, n - (k + 1), j) && Overruns(t[j..]) {
      assert t[j..] == s[k + 1 + j..];
      assert ArgAt(s, n, k + 1 + j);
    }
    if j: nat :| ArgAt(s, n, j) && Overruns(s[j..]) {
      if j == 0 {
        assert s[0..] == s;
      } else {
        assert t[j - (k + 1)..] == s[j..];
        assert ArgAt(t, n - (k + 1), j - (k + 1));
      }
    }
  }

  lemma OverrunsOnce(s: string, n: int)
    requires forall j: nat :: ArgAt(s, n, j) ==> j == 0
    ensures SomeOverruns(s, n) <==> Overruns(s)
  {
    hide Overruns;
    assert s[0..] == s && ArgAt(s, n, 0);
  }

  /** Arguments that a delimiter closes just before the form: only a string too long for its buffer goes wrong. */
  lemma {:induction false} TakesClosed(s: string, n: nat, list: seq<Arg>, st: Scanned, ok: bool)
    requires 1 <= n <= |s| && s[n - 1] == '^'
    ensures TakeArgs(s, n, list, st, ok).None? <==> SomeOverruns(s, n)
    decreases |s|
  {
    hide ScanArg, SetArg, Overruns, SomeOverruns;
    var k := IndexOf(s, '^');
    if k + 1 >= n {
      OverrunsOnce(s, n);
    } else {
      OverrunsLater(s, n, k);
      var known := s != [] && (s[0] == 's' || s[0] == 'i' || s[0] == 'f');
      var st1 := if known then ScanArg(s, st) else st;
      var put := if known then SetArg(list, ArgOf(s[0], st1).value) else None;
      TakesClosed(s[k + 1..], n - (k + 1), if put.Some? then put.value else list, st1, ok && put.Some?);
    }
  }

  /** Where the form has begun only one argument is looked for, and it needs a delimiter behind it. */
  lemma TakesInForm(s: string, n: int, list: seq<Arg>, st: Scanned, ok: bool)
    requires n <= 0
    ensures TakeArgs(s, n, list, st, ok).None? <==> '^' !in s || SomeOverruns(s, n)
  {
    hide ScanArg, SetArg, Overruns, SomeOverruns;
    OverrunsOnce(s, n);
  }

  lemma StarInside(m: string)
    requires !PlainForm(m)
    ensures LastIn(m, '*', |m|).Some? && LastIn(m, '*', |m|).value >= FormStart(m)
  {
    var form := FormStart(m);
    hide LastIn, FormStart;
    var i :| 0 <= i < |m[form..]| && m[form..][i] == '*';
    assert m[form + i] == '*';
  }

  /** Taking a magic URL apart, from its last star. */
  lemma FromStar(m: string, star: nat, list: seq<Arg>, st: Scanned)
    requires IsMagic(m) && LastIn(m, '*', |m|) == Some(star)
    ensures FromMagic(m, list, st).Undefined? <==>
            star + 2 > |m| || TakeArgs(m[star + 2..], FormStart(m) - (star + 2), list, st, true).None?
  {
    hide IsMagic, LastIn, FormStart, TakeArgs;
  }

  /** Where the last star of a magic URL without a star in its form stands. */
  lemma PlainStar(m: string)
    requires IsMagic(m) && PlainForm(m)
    ensures var star, form := LastIn(m, '*', |m|), FormStart(m);
            star.Some? && star.value + 3 <= form <= |m| && m[form - 1] == '^'
  {
    LastPlain(m);
    hide LastIn, FormStart;
  }

  lemma UndefinedPlain(m: string, star: nat, list: seq<Arg>, st: Scanned)
    requires IsMagic(m) && PlainForm(m) && LastIn(m, '*', |m|) == Some(star)
    ensures star + 2 <= |m|
    ensures FromMagic(m, list, st).Undefined? <==> SomeOverruns(m[star + 2..], FormStart(m) - (star + 2))
  {
    hide TakeArgs, LastIn, FormStart, IsMagic, FromMagic, PlainForm, SomeOverruns;
    PlainStar(m);
    FromStar(m, star, list, st);
    var s, n := m[star + 2..], FormStart(m) - (star + 2);
    assert s[n - 1] == m[FormStart(m) - 1];
    TakesClosed(s, n, list, st, true);
  }

  lemma UndefinedInForm(m: string, star: nat, list: seq<Arg>, st: Scanned)
    requires IsMagic(m) && !PlainForm(m) && LastIn(m, '*', |m|) == Some(star)
    ensures FromMagic(m, list, st).Undefined? <==>
            || star + 2 > |m| || '^' !in m[star + 2..]
            || SomeOverruns(m[star + 2..], FormStart(m) - (star + 2))
  {
    StarInside(m);
    FromStar(m, star, list, st);
    hide TakeArgs, LastIn, FormStart, IsMagic, FromMagic, PlainForm;
    if star + 2 <= |m| {
      TakesInForm(m[star + 2..], FormStart(m) - (star + 2), list, st, true);
    }
  }

  lemma StarSomewhere(m: string)
    requires IsMagic(m)
    ensures LastIn(m, '*', |m|).Some?
  {
    var star := LastIn(m, '*', FormStart(m));
    assert m[star.value] == '*';
    hide LastIn, FormStart;
  }

  /** The last star is in the form with no delimiter two characters or more behind it, or an argument looked for is a
      string too long for its buffer. */
  ghost predicate Leaves(m: string) {
    var star := LastIn(m, '*', |m|);
    star.Some? &&
    var from := star.value + 2;
    || (!PlainForm(m) && (from > |m| || '^' !in m[from..]))
    || (from <= |m| && SomeOverruns(m[from..], FormStart(m) - from))
  }

  /** Exactly the URLs on which the program leaves the text or overruns a buffer. */
  lemma UndefinedIff(m: string, list: seq<Arg>, st: Scanned)
    ensures FromMagic(m, list, st).Undefined? <==> IsMagic(m) && Leaves(m)
  {
    if !IsMagic(m) {
      NotMagicFails(m, list, st);
    } else {
      hide TakeArgs, LastIn, FormStart, IsMagic, FromMagic, PlainForm, SomeOverruns;
      StarSomewhere(m);
      var star := LastIn(m, '*', |m|).value;
      if PlainForm(m) {
        UndefinedPlain(m, star, list, st);
      } else {
        UndefinedInForm(m, star, list, st);
      }
    }
  }

  lemma LastInForm(u: string, tail: string)
    requires IsMagic(u) && '?' in u && '*' !in tail
    ensures var m := u + "*" + tail; IsMagic(m) && !PlainForm(m) && LastIn(m, '*', |m|) == Some(|u|)
  {
    var m, more := u + "*" + tail, "*" + tail;
    assert m == u + more;
    IndexKept(u, '?', more);
    LastKept(u, '*', more, FormStart(u));
    assert IsMagic(m);
    hide IsMagic;
    assert m[|u|] == '*';
    assert m[FormStart(m)..][|u| - FormStart(m)] == '*';
    forall k | |u| < k < |m|
      ensures m[k] != '*'
    {
      assert m[k] == tail[k - |u| - 1];
    }
    LastIs(m, '*', |m|, |u|);
  }

  /** A star in the form of a magic URL with too little behind it. */
  lemma StarInFormEnds(u: string, tail: string, list: seq<Arg>, st: Scanned)
    requires IsMagic(u) && '?' in u && '*' !in tail && '^' !in tail
    ensures IsMagic(u + "*" + tail) && FromMagic(u + "*" + tail, list, st) == Undefined
  {
    var m := u + "*" + tail;
    LastInForm(u, tail);
    hide FromMagic, IsMagic, LastIn, FormStart, PlainForm;
    UndefinedIff(m, list, st);
    if |u| + 2 <= |m| {
      assert m[|u| + 2..] == tail[1..];
    }
  }

  /** A string of 80 characters or more put into a URL overruns the buffer when it is taken out. */
  lemma LongOverruns(url: string, id: nat, text: string, list: seq<Arg>, st: Scanned)
    requires !IsMagic(url) && PlainForm(url) && id < ULONG && Safe(text) && |text| >= MAX_ARG_STRING
    ensures FromMagic(ToMagic(url, [Arg(id, Text(text))]), list, st) == Undefined
  {
    var front, form, a := url[..FormStart(url)], url[FormStart(url)..], Arg(id, Text(text));
    UrlParts(url);
    OneArgMagic(url, a);
    hide ToMagic, PrintArg, IsMagic, FormStart, LastIn, FromMagic, Overruns, PlainForm;
    PrintedSafe(id, text);
    TextOverruns(id, text, form);
    LongInParts(front, PrintArg(a), form, list, st);
  }

  lemma TextOverruns(id: nat, text: string, form: string)
    requires id < ULONG && '^' !in text && |text| >= MAX_ARG_STRING
    ensures Overruns(PrintArg(Arg(id, Text(text))) + form)
  {
    hide PrintArg, ScanArg, Overruns, IndexOf;
    ScansText(id, text, form, Scanned(0, "", 0, ""));
    CutText(text, form);
  }

  lemma LongInParts(front: string, p: string, form: string, list: seq<Arg>, st: Scanned)
    requires '?' !in front && '?' !in p && '*' !in p && '*' !in form && (form == "" || form[0] == '?')
    requires p != "" && p[|p| - 1] == '^' && Overruns(p + form)
    ensures FromMagic(front + "*^" + p + form, list, st) == Undefined
  {
    hide IsMagic, FormStart, LastIn, FromMagic, Overruns, PlainForm;
    MagicParts(front, p, form);
    var m := front + "*^" + p + form;
    LastPlain(m);
    FirstOverruns(p + form, FormStart(m) - (|front| + 2));
    hide SomeOverruns;
    UndefinedIff(m, list, st);
  }

  lemma FirstOverruns(s: string, n: int)
    requires Overruns(s)
    ensures SomeOverruns(s, n)
  {
    hide Overruns;
    assert s[0..] == s && ArgAt(s, n, 0);
  }

  lemma PrintedSafe(id: nat, text: string)
    requires Safe(text)
    ensures var p := PrintArg(Arg(id, Text(text))); p != "" && p[|p| - 1] == '^' && '?' !in p && '*' !in p
  {
    DecimalSafe(id);
    hide Decimal;
  }

  /** Two such URLs: the star last, and the star with no delimiter behind it. */
  lemma StarInForm(list: seq<Arg>, st: Scanned)
    ensures IsMagic("h*^i1=2^?*") && FromMagic("h*^i1=2^?*", list, st) == Undefined
    ensures IsMagic("h*^i1=2^?*ab") && FromMagic("h*^i1=2^?*ab", list, st) == Undefined
  {
    hide IsMagic, FromMagic, LastIn, FormStart;
    var u := "h" + "*^" + "i1=2^" + "?";
    MagicParts("h", "i1=2^", "?");
    assert u[8] == '?';
    StarInFormEnds(u, "", list, st);
    StarInFormEnds(u, "ab", list, st);
    assert u + "*" + "" == "h*^i1=2^?*";
    assert u + "*" + "ab" == "h*^i1=2^?*ab";
  }

  /** A URL without a star gets its arguments behind a star, before the form. */
  lemma NewShape(front: string, form: string, args: seq<Arg>)
    requires '?' !in front && '*' !in front && (form == "" || form[0] == '?') && args != []
    ensures ToMagic(front + form, args) == front + "*^" + PrintArgs(args) + form
  {
    var url := front + form;
    FormFound(front, form);
    assert url[..|front|] == front && url[|front|..] == form;
    hide FormStart, LastIn, PrintArgs;
  }

  lemma PrintSample()
    ensures PrintArgs([Arg(1, Int(5))]) == "i1=5^" && PrintArgs([Arg(2, Text("t"))]) == "s2=t^"
  {
    assert Decimal(1) == "1" && Decimal(2) == "2" && Decimal(5) == "5";
    hide Decimal;
    assert PrintArg(Arg(1, Int(5))) == "i1=5^" && PrintArg(Arg(2, Text("t"))) == "s2=t^";
    hide PrintArg;
    assert [Arg(1, Int(5))][1..] == [] && [Arg(2, Text("t"))][1..] == [];
  }

  /** The shape of a magic URL: new arguments stand behind those already there, and all before the form. */
  lemma MagicSample()
    ensures ToMagic("h/w?f", [Arg(1, Int(5))]) == "h/w*^i1=5^?f"
    ensures ToMagic("h/w*^i1=5^?f", [Arg(2, Text("t"))]) == "h/w*^i1=5^s2=t^?f"
  {
    hide ToMagic, IsMagic, FormStart, LastIn, PrintArgs, PlainForm;
    PrintSample();
    NewShape("h/w", "?f", [Arg(1, Int(5))]);
    MagicParts("h/w", "i1=5^", "?f");
    ToMore("h/w", "i1=5^", "?f", [Arg(2, Text("t"))]);
    assert "h/w" + "?f" == "h/w?f";
    assert "h/w" + "*^" + "i1=5^" + "?f" == "h/w*^i1=5^?f";
    assert "h/w" + "*^" + ("i1=5^" + "s2=t^") + "?f" == "h/w*^i1=5^s2=t^?f";
  }

  // ----- the operations -----

  lemma {:induction false} PrintArgsMore(args: seq<Arg>, a: Arg)
    ensures PrintArgs(args + [a]) == PrintArgs(args) + PrintArg(a)
  {
    hide PrintArg;
    if args == [] {
      assert args + [a] == [a];
      assert [a][1..] == [];
    } else {
      assert (args + [a])[1..] == args[1..] + [a];
      PrintArgsMore(args[1..], a);
    }
  }

  lemma {:induction false} PrintArgsJoin(args: seq<Arg>, more: seq<Arg>)
    ensures PrintArgs(args + more) == PrintArgs(args) + PrintArgs(more)
  {
    hide PrintArg;
    if args == [] {
      assert args + more == more;
    } else {
      assert (args + more)[1..] == args[1..] + more;
      PrintArgsJoin(args[1..], more);
    }
  }

  lemma ToPlain(url: string, args: seq<Arg>)
    requires !IsMagic(url) && args != []
    ensures ToMagic(url, args) == url[..FormStart(url)] + "*^" + PrintArgs(args) + url[FormStart(url)..]
  {
    hide PrintArgs, IsMagic, FormStart;
  }

  lemma ToMore(front: string, p: string, form: string, more: seq<Arg>)
    requires var m := front + "*^" + p + form; IsMagic(m) && FormStart(m) == |front| + 2 + |p|
    requires more != []
    ensures ToMagic(front + "*^" + p + form, more) == front + "*^" + (p + PrintArgs(more)) + form
  {
    hide PrintArgs, IsMagic, FormStart;
    var m := front + "*^" + p + form;
    assert m[..|front| + 2 + |p|] == front + "*^" + p && m[|front| + 2 + |p|..] == form;
    Pieces(front + "*^", p, PrintArgs(more));
    assert front + "*^" + p + "" == front + "*^" + p;
  }

  /** Arguments put into a URL that already carries some go behind them. */
  lemma MagicTwice(url: string, args: seq<Arg>, more: seq<Arg>)
    requires !IsMagic(url) && PlainForm(url) && args != [] && ArgsOk(args)
    ensures ToMagic(ToMagic(url, args), more) == ToMagic(url, args + more)
  {
    var front, form := url[..FormStart(url)], url[FormStart(url)..];
    if more == [] {
      assert args + more == args;
    } else {
      UrlParts(url);
      hide PrintArgs, IsMagic, FormStart, ArgsOk, ToMagic;
      ArgsSafe(args);
      LastDelimiter(args);
      ToPlain(url, args);
      ToPlain(url, args + more);
      PrintArgsJoin(args, more);
      MagicParts(front, PrintArgs(args), form);
      ToMore(front, PrintArgs(args), form, more);
    }
  }

  /** Whether a URL carries arguments. */
  method Recognise(url: string) returns (r: bool)
    ensures r == IsMagic(url)
  {
    var form := FormStart(url);
    var star: Option<nat> := None;
    for i := 0 to form
      invariant star == LastIn(url, '*', i)
    {
      if url[i] == '*' {
        star := Some(i);
      }
    }
    if star.None? {
      return false;
    }
    r := star.value + 1 < |url| && url[star.value + 1] == '^' && url[form - 1] == '^' && star.value + 1 != form - 1;
  }

  class ArgumentList {
    var args: seq<Arg>

    constructor (list: seq<Arg>)
      ensures args == list
    {
      args := list;
    }

    /** Prints the arguments into the URL; ok is false when there are none.  What an unclosed string prints as depends on
        the memory behind it. */
    method Magicify(url: string) returns (defined: bool, ok: bool, murl: string)
      ensures defined <==> forall i :: 0 <= i < |args| ==> !args[i].value.Unclosed?
      ensures defined ==> ok == (args != []) && murl == ToMagic(url, args)
    {
      hide PrintArg, IsMagic, IndexOf;
      if args == [] {
        return true, false, url;
      }
      var form := FormStart(url);
      var magic := Recognise(url);
      murl := url[..form] + if magic then "" else "*^";
      ghost var front := murl;
      for i := 0 to |args|
        invariant murl == front + PrintArgs(args[..i])
        invariant forall j :: 0 <= j < i ==> !args[j].value.Unclosed?
      {
        if args[i].value.Unclosed? {
          return false, false, murl;
        }
        PrintArgsMore(args[..i], args[i]);
        assert args[..i] + [args[i]] == args[..i + 1];
        murl := murl + PrintArg(args[i]);
      }
      assert args[..|args|] == args;
      murl := murl + url[form..];
      defined, ok := true, true;
    }

    /** Sets one argument; false when there is no room for it. */
    method Set(a: Arg) returns (ok: bool)
      modifies this
      ensures ok == SetArg(old(args), a).Some?
      ensures args == if ok then SetArg(old(args), a).value else old(args)
    {
      var i := 0;
      while i < |args|
        invariant i <= |args| && Find(args, a.id, 0) == Find(args, a.id, i)
      {
        if args[i].id == a.id {
          break;
        }
        i := i + 1;
      }
      ok := i != MAX_ARGS;
      if ok {
        args := if i == |args| then args + [a] else args[i := a];
      }
    }

    /** Sets the arguments found from a place on, n characters before the form. */
    method SetAll(s0: string, n0: int, st0: Scanned) returns (defined: bool, ok: bool, rest: string)
      modifies this
      ensures TakeArgs(s0, n0, old(args), st0, true) == if defined then Some(Taken(args, ok, rest)) else None
    {
      hide ScanArg, SetArg, IndexOf, Overruns;
      var s, n, st := s0, n0, st0;
      ghost var whole := TakeArgs(s, n, args, st, true);
      ok := true;
      while true
        invariant whole == TakeArgs(s, n, args, st, ok)
        decreases |s|
      {
        if Overruns(s) {
          return false, ok, s;
        }
        if s != [] && (s[0] == 's' || s[0] == 'i' || s[0] == 'f') {
          st := ScanArg(s, st);
          var done := Set(ArgOf(s[0], st).value);
          ok := ok && done;
        } else {
          ok := false;
        }
        var k := IndexOf(s, '^');
        if k == |s| {
          return false, ok, s;
        }
        if k + 1 >= n {
          return true, ok, s[k + 1..];
        }
        s, n := s[k + 1..], n - (k + 1);
      }
    }

    /** Takes the arguments out of a magic URL and sets them. */
    method Unmagicify(murl: string, st0: Scanned) returns (defined: bool, ok: bool, url: string)
      modifies this
      ensures FromMagic(murl, old(args), st0) == if defined then Unpacked(url, args, ok) else Undefined
    {
      hide TakeArgs, IndexOf, LastIn;
      var magic := Recognise(murl);
      if !magic {
        return true, false, murl;
      }
      var form := FormStart(murl);
      var star := LastIn(murl, '*', |murl|).value;
      if star + 2 > |murl| {
        return false, false, murl;
      }
      var rest;
      defined, ok, rest := SetAll(murl[star + 2..], form - (star + 2), st0);
      url := murl[..star] + rest;
    }
  }
}
