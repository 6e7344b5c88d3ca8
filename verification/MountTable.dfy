/** Two readers of the kernel's mount table: how each undoes the octal escapes of a mount
    point, and which entry each takes for a path. */
module MountTable {
  import opened Strings
  import opened Wrappers

  /** The character each three-digit code stands for. */
  type Escapes = map<string, char>

  const SPACE := "040"
  const TAB := "011"
  const NEWLINE := "012"
  const BACKSLASH := "134"

  const ESCAPES: Escapes := map[SPACE := ' ', TAB := '\t', NEWLINE := '\n', BACKSLASH := '\\']

  predicate Escaped(s: string, table: Escapes) {
    |s| >= 4 && s[0] == '\\' && s[1..4] in table
  }

  /** One pass from left to right. */
  function Decode(table: Escapes, s: string): string {
    if s == "" then ""
    else if Escaped(s, table) then [table[s[1..4]]] + Decode(table, s[4..])
    else [s[0]] + Decode(table, s[1..])
  }

  /** Every occurrence of a backslash and `code`, leftmost first, becomes `c`. */
  function Replace(s: string, code: string, c: char): string
    requires |code| == 3
  {
    if s == "" then ""
    else if ("\\" + code) <= s then [c] + Replace(s[4..], code, c)
    else [s[0]] + Replace(s[1..], code, c)
  }

  /** The order of the replacements: the escaped backslash comes last. */
  const ORDER: seq<(string, char)> := [(SPACE, ' '), (TAB, '\t'), (NEWLINE, '\n'), (BACKSLASH, '\\')]

  function ReplaceAll(s: string, order: seq<(string, char)>): string
    requires forall e :: e in order ==> |e.0| == 3
  {
    if order == [] then s
    else
      var last := order[|order| - 1];
      Replace(ReplaceAll(s, order[..|order| - 1]), last.0, last.1)
  }

  // -- the two decoders -----------------------------------------------------------

  /** What the loop has put out so far and what is left of the field. */
  ghost predicate Decoding(table: Escapes, field: string, i: nat, out: string) {
    i <= |field| && out + Decode(table, field[i..]) == Decode(table, field)
  }

  /** The three characters after position i, or fewer at the end. */
  function CodeAt(field: string, i: nat): string
    requires i < |field|
  {
    if i + 4 <= |field| then field[i + 1..i + 4] else field[i + 1..]
  }

  lemma DecodesEscape(table: Escapes, field: string, i: nat, out: string)
    requires Decoding(table, field, i, out) && i < |field| && |CodeAt(field, i)| == 3
    requires field[i] == '\\' && CodeAt(field, i) in table
    ensures Decoding(table, field, i + 4, out + [table[CodeAt(field, i)]])
  {
    var rest := field[i..];
    assert rest[1..4] == CodeAt(field, i) && rest[4..] == field[i + 4..];
    Associative(out, [table[CodeAt(field, i)]], Decode(table, rest[4..]));
  }

  lemma DecodesPlain(table: Escapes, field: string, i: nat, out: string)
    requires Decoding(table, field, i, out) && i < |field|
    requires !(field[i] == '\\' && CodeAt(field, i) in table)
    ensures Decoding(table, field, i + 1, out + [field[i]])
  {
    var rest := field[i..];
    assert rest[1..] == field[i + 1..];
    if |rest| >= 4 {
      assert rest[1..4] == CodeAt(field, i);
    }
    Associative(out, [field[i]], Decode(table, rest[1..]));
  }

  method UnescapeMountField(field: string) returns (out: string)
    ensures out == Decode(ESCAPES, field)
  {
    out := "";
    var i := 0;
    assert field[0..] == field && "" + Decode(ESCAPES, field) == Decode(ESCAPES, field);
    while i < |field|
      invariant Decoding(ESCAPES, field, i, out)
    {
      var code := CodeAt(field, i);
      if field[i] == '\\' && code in ESCAPES {
        DecodesEscape(ESCAPES, field, i, out);
        out := out + [ESCAPES[code]];
        i := i + 4;
      } else {
        DecodesPlain(ESCAPES, field, i, out);
        out := out + [field[i]];
        i := i + 1;
      }
    }
    assert out + "" == out;
  }

  method UnescapeMountPoint(raw: string) returns (out: string)
    ensures out == ReplaceAll(raw, ORDER)
  {
    out := raw;
    for k := 0 to |ORDER|
      invariant out == ReplaceAll(raw, ORDER[..k])
    {
      assert ORDER[..k + 1][..k] == ORDER[..k];
      out := Replace(out, ORDER[k].0, ORDER[k].1);
    }
    assert ORDER[..|ORDER|] == ORDER;
  }

  // -- successive replacement is a single pass --------------------------------------

  /** What a table decodes to cannot be taken for a backslash or for a part of `code`. */
  ghost predicate Apart(table: Escapes, code: string) {
    && |code| == 3 && code !in table && '\\' !in code
    && (forall k :: k in table ==> |k| == 3 && table[k] != '\\' && table[k] !in code)
  }

  /** Text without a backslash decodes to itself. */
  lemma {:induction false} DecodePlain(table: Escapes, plain: string, rest: string)
    requires '\\' !in plain
    ensures Decode(table, plain + rest) == plain + Decode(table, rest)
  {
    if plain == "" {
      assert plain + rest == rest;
    } else {
      var s := plain + rest;
      assert s[0] == plain[0] != '\\' && s[1..] == plain[1..] + rest;
      DecodePlain(table, plain[1..], rest);
    }
  }

  /** A decoded text that starts with part of `code` was written that way. */
  lemma {:induction false} StartsAsWritten(table: Escapes, code: string, p: string, s: string)
    requires Apart(table, code) && (forall x :: x in p ==> x in code) && p <= Decode(table, s)
    ensures p <= s
  {
    if p != "" && s != "" {
      assert p[0] in p;
      if Escaped(s, table) {
        assert false;
      } else {
        var d := Decode(table, s[1..]);
        assert Decode(table, s) == [s[0]] + d;
        assert p[1..] <= d;
        StartsAsWritten(table, code, p[1..], s[1..]);
        assert p == [p[0]] + p[1..] && s == [s[0]] + s[1..];
      }
    }
  }

  lemma WrittenIsEscaped(code: string, c: char, s: string)
    requires |code| == 3 && s != "" && s[0] == '\\' && code <= s[1..]
    ensures Escaped(s, map[code := c])
  {
    assert s[1..4] == code;
  }

  lemma CodeSurvives(table: Escapes, code: string, s: string)
    requires Apart(table, code) && !Escaped(s, table) && |s| >= 4 && s[0] == '\\' && s[1..4] == code
    ensures Decode(table, s) == ("\\" + code) + Decode(table, s[4..])
  {
    assert s[1..] == code + s[4..];
    DecodePlain(table, code, s[4..]);
    Associative("\\", code, Decode(table, s[4..]));
  }

  /** The new code survives the first pass and is replaced. */
  lemma CodeIsReplaced(table: Escapes, code: string, c: char, s: string)
    requires Apart(table, code) && !Escaped(s, table) && Escaped(s, map[code := c])
    requires Replace(Decode(table, s[4..]), code, c) == Decode(table[code := c], s[4..])
    ensures Replace(Decode(table, s), code, c) == Decode(table[code := c], s)
  {
    CodeSurvives(table, code, s);
    assert Escaped(s, table[code := c]);
  }

  /** No other character starts an occurrence of the new code. */
  lemma PlainIsKept(table: Escapes, code: string, c: char, s: string)
    requires Apart(table, code) && s != "" && !Escaped(s, table) && !Escaped(s, map[code := c])
    requires Replace(Decode(table, s[1..]), code, c) == Decode(table[code := c], s[1..])
    ensures Replace(Decode(table, s), code, c) == Decode(table[code := c], s)
  {
    var d, rest := Decode(table, s), Decode(table, s[1..]);
    assert d == [s[0]] + rest && d[1..] == rest;
    if ("\\" + code) <= d {
      SplitPrefix(code, s[0], rest);
      StartsAsWritten(table, code, code, s[1..]);
      WrittenIsEscaped(code, c, s);
      assert false;
    }
    assert !Escaped(s, table[code := c]);
  }

  lemma SplitPrefix(code: string, first: char, rest: string)
    requires ("\\" + code) <= [first] + rest
    ensures first == '\\' && code <= rest
  {
    assert ([first] + rest)[0] == ("\\" + code)[0];
    assert rest == ([first] + rest)[1..] && code == ("\\" + code)[1..];
  }

  /** Decoding one more code by a replacement afterwards is decoding it in the same pass. */
  lemma {:induction false} OneMoreCode(table: Escapes, code: string, c: char, s: string)
    requires Apart(table, code)
    ensures Replace(Decode(table, s), code, c) == Decode(table[code := c], s)
    decreases |s|
  {
    if s != "" {
      if Escaped(s, table) {
        OneMoreCode(table, code, c, s[4..]);
      } else if Escaped(s, map[code := c]) {
        OneMoreCode(table, code, c, s[4..]);
        CodeIsReplaced(table, code, c, s);
      } else {
        OneMoreCode(table, code, c, s[1..]);
        PlainIsKept(table, code, c, s);
      }
    }
  }

  lemma {:induction false} DecodeNothing(s: string)
    ensures Decode(map[], s) == s
  {
    if s != "" {
      DecodeNothing(s[1..]);
    }
  }

  function Table(order: seq<(string, char)>): Escapes {
    if order == [] then map[]
    else Table(order[..|order| - 1])[order[|order| - 1].0 := order[|order| - 1].1]
  }

  /** No earlier replacement produces a piece of a later code. */
  ghost predicate InOrder(order: seq<(string, char)>) {
    order == [] || (InOrder(order[..|order| - 1]) && Apart(Table(order[..|order| - 1]), order[|order| - 1].0))
  }

  lemma {:induction false} ReplacementsAreOnePass(s: string, order: seq<(string, char)>)
    requires InOrder(order)
    ensures forall e :: e in order ==> |e.0| == 3
    ensures ReplaceAll(s, order) == Decode(Table(order), s)
  {
    if order == [] {
      DecodeNothing(s);
    } else {
      var rest, last := order[..|order| - 1], order[|order| - 1];
      ReplacementsAreOnePass(s, rest);
      assert order == rest + [last];
      OneMoreCode(Table(rest), last.0, last.1, s);
    }
  }

  lemma OneMoreStep(order: seq<(string, char)>, code: string, c: char)
    ensures Table(order + [(code, c)]) == Table(order)[code := c]
    ensures InOrder(order + [(code, c)]) <==> InOrder(order) && Apart(Table(order), code)
  {
    var more := order + [(code, c)];
    assert more[..|more| - 1] == order;
  }

  lemma OrderIsInOrder()
    ensures InOrder(ORDER) && Table(ORDER) == ESCAPES
  {
    var t1 := [] + [(SPACE, ' ')];
    var t2 := t1 + [(TAB, '\t')];
    var t3 := t2 + [(NEWLINE, '\n')];
    OneMoreStep([], SPACE, ' ');
    OneMoreStep(t1, TAB, '\t');
    OneMoreStep(t2, NEWLINE, '\n');
    OneMoreStep(t3, BACKSLASH, '\\');
    assert Table(t1) == map[SPACE := ' '];
    assert Table(t2) == map[SPACE := ' ', TAB := '\t'];
    assert Table(t3) == map[SPACE := ' ', TAB := '\t', NEWLINE := '\n'];
    assert t3 + [(BACKSLASH, '\\')] == ORDER;
  }

  /** The two decoders agree on every string. */
  lemma DecodersAgree(s: string)
    ensures ReplaceAll(s, ORDER) == Decode(ESCAPES, s)
  {
    OrderIsInOrder();
    ReplacementsAreOnePass(s, ORDER);
  }

  /** Replacing the backslash first would decode an escaped backslash twice. */
  lemma OrderMatters(s: string)
    requires s == "\\134040"
    ensures Replace(Replace(s, BACKSLASH, '\\'), SPACE, ' ') == " " && Decode(ESCAPES, s) == "\\040"
  {
    assert s == ("\\" + BACKSLASH) + SPACE && "\\040" == ("\\" + SPACE) + "";
    PlainStays(SPACE, BACKSLASH, '\\');
    DecodeHead(ESCAPES, BACKSLASH, SPACE);
    DecodePlain(ESCAPES, SPACE, "");
    assert SPACE + "" == SPACE;
  }

  lemma DecodeHead(table: Escapes, code: string, rest: string)
    requires |code| == 3 && code in table
    ensures Decode(table, ("\\" + code) + rest) == [table[code]] + Decode(table, rest)
  {
    var s := ("\\" + code) + rest;
    assert s[1..4] == code && s[4..] == rest;
  }

  lemma {:induction false} PlainStays(s: string, code: string, c: char)
    requires '\\' !in s && |code| == 3
    ensures Replace(s, code, c) == s
  {
    if s != "" {
      PlainStays(s[1..], code, c);
      assert ("\\" + code)[0] == '\\';
      assert [s[0]] + s[1..] == s;
    }
  }

  // -- both invert the kernel's escaping ---------------------------------------------

  function CodeOf(c: char): Option<string> {
    if c == ' ' then Some(SPACE) else if c == '\t' then Some(TAB)
    else if c == '\n' then Some(NEWLINE) else if c == '\\' then Some(BACKSLASH) else None
  }

  function Encode(s: string): string {
    if s == "" then ""
    else (if CodeOf(s[0]).Some? then "\\" + CodeOf(s[0]).value else [s[0]]) + Encode(s[1..])
  }

  lemma {:induction false} DecodeEncode(s: string)
    ensures Decode(ESCAPES, Encode(s)) == s
  {
    if s != "" {
      DecodeEncode(s[1..]);
      var e := Encode(s);
      if CodeOf(s[0]).Some? {
        assert e[1..4] == CodeOf(s[0]).value && e[4..] == Encode(s[1..]);
      } else {
        assert e[0] == s[0] && e[1..] == Encode(s[1..]);
      }
    }
  }

  lemma ReplacingInvertsEscaping(s: string)
    ensures ReplaceAll(Encode(s), ORDER) == s
  {
    DecodersAgree(Encode(s));
    DecodeEncode(s);
  }

  /** A field the kernel may have written: no bare separator, every backslash escapes. */
  predicate KernelField(s: string) {
    if s == "" then true
    else if Escaped(s, ESCAPES) then KernelField(s[4..])
    else CodeOf(s[0]).None? && KernelField(s[1..])
  }

  lemma EncodeHead(c: char, rest: string)
    ensures Encode([c] + rest)
      == (if CodeOf(c).Some? then "\\" + CodeOf(c).value else [c]) + Encode(rest)
  {
    assert ([c] + rest)[1..] == rest;
  }

  lemma CodeOfDecoded(code: string)
    requires code in ESCAPES
    ensures CodeOf(ESCAPES[code]) == Some(code)
  {
  }

  lemma BareIsLost(c: char, code: string, encoded: string, rest: string)
    requires CodeOf(c) == Some(code) && ("\\" + code) + encoded == [c] + rest
    ensures Escaped([c] + rest, ESCAPES)
  {
    assert (("\\" + code) + encoded)[1..4] == code;
  }

  /** On such fields, and only on them, nothing is lost. */
  lemma {:induction false} EncodeDecode(s: string)
    ensures Encode(Decode(ESCAPES, s)) == s <==> KernelField(s)
    decreases |s|
  {
    if s != "" {
      if Escaped(s, ESCAPES) {
        EncodeDecode(s[4..]);
        CodeOfDecoded(s[1..4]);
        EncodeHead(ESCAPES[s[1..4]], Decode(ESCAPES, s[4..]));
        assert s == ("\\" + s[1..4]) + s[4..];
        SamePrefix("\\" + s[1..4], Encode(Decode(ESCAPES, s[4..])), s[4..]);
      } else {
        EncodeDecode(s[1..]);
        EncodeHead(s[0], Decode(ESCAPES, s[1..]));
        assert s == [s[0]] + s[1..];
        var encoded := Encode(Decode(ESCAPES, s[1..]));
        if CodeOf(s[0]).None? {
          SamePrefix([s[0]], encoded, s[1..]);
        } else if ("\\" + CodeOf(s[0]).value) + encoded == s {
          BareIsLost(s[0], CodeOf(s[0]).value, encoded, s[1..]);
        }
      }
    }
  }

  lemma SamePrefix(p: string, a: string, b: string)
    ensures p + a == p + b <==> a == b
  {
    assert (p + a)[|p|..] == a && (p + b)[|p|..] == b;
  }

  // -- the entry that carries a path -------------------------------------------------

  predicate Carries(point: string, path: string) {
    point == "/" || path == point || point + "/" <= path
  }

  predicate Absolute(path: string) {
    |path| > 0 && path[0] == '/'
  }

  /** The names between the slashes. */
  function Names(path: string): (names: seq<string>)
    ensures names != []
  {
    if path == "" then [""]
    else if path[0] == '/' then [""] + Names(path[1..])
    else
      var rest := Names(path[1..]);
      [[path[0]] + rest[0]] + rest[1..]
  }

  lemma ConsPrefix<T>(x: T, a: seq<T>, y: T, b: seq<T>)
    ensures [x] + a <= [y] + b <==> x == y && a <= b
    ensures [x] + a == [y] + b <==> x == y && a == b
  {
    assert ([x] + a)[0] == x && ([y] + b)[0] == y && ([x] + a)[1..] == a && ([y] + b)[1..] == b;
    if a <= b {
      assert b[..|a|] == a;
      assert ([y] + b)[..|a| + 1] == [y] + a;
    }
    if [x] + a <= [y] + b {
      assert ([y] + b)[..|a| + 1] == [x] + a;
      assert b[..|a|] == ([y] + b)[..|a| + 1][1..];
    }
  }

  /** One character more on both sides. */
  lemma HeadsDecide(c: char, point: string, d: char, path: string)
    ensures [d] + path == [c] + point || ([c] + point) + "/" <= [d] + path
      <==> c == d && (path == point || point + "/" <= path)
  {
    assert ([c] + point) + "/" == [c] + (point + "/");
    ConsPrefix(c, point + "/", d, path);
    ConsPrefix(d, path, c, point);
  }

  lemma NamesOf(c: char, rest: string)
    ensures var r := Names(rest);
      Names([c] + rest) == if c == '/' then [""] + r else [[c] + r[0]] + r[1..]
  {
    assert ([c] + rest)[1..] == rest;
  }

  lemma NamesHeads(c: char, point: string, d: char, path: string)
    ensures Names([c] + point) <= Names([d] + path) <==> c == d && Names(point) <= Names(path)
  {
    var a, b := Names(point), Names(path);
    NamesOf(c, point);
    NamesOf(d, path);
    assert a == [a[0]] + a[1..] && b == [b[0]] + b[1..];
    ConsPrefix("", a, "", b);
    ConsPrefix([c] + a[0], a[1..], [d] + b[0], b[1..]);
    ConsPrefix("", a, [d] + b[0], b[1..]);
    ConsPrefix([c] + a[0], a[1..], "", b);
    ConsPrefix(a[0], a[1..], b[0], b[1..]);
    ConsPrefix(c, a[0], d, b[0]);
  }

  lemma {:induction false} NamesDecide(point: string, path: string)
    ensures path == point || point + "/" <= path <==> Names(point) <= Names(path)
  {
    if point == "" {
      EmptyDecides(path);
    } else if path != "" {
      NamesDecide(point[1..], path[1..]);
      HeadsDecide(point[0], point[1..], path[0], path[1..]);
      NamesHeads(point[0], point[1..], path[0], path[1..]);
      assert point == [point[0]] + point[1..] && path == [path[0]] + path[1..];
    } else {
      NamesOf(point[0], point[1..]);
      assert point == [point[0]] + point[1..];
      assert Names(path) == [""] && |Names(point[1..])| >= 1;
      if point[0] == '/' {
        assert |Names(point)| >= 2;
      } else {
        assert Names(point)[0] != [""][0];
      }
    }
  }

  lemma EmptyDecides(path: string)
    ensures path == "" || "" + "/" <= path <==> Names("") <= Names(path)
  {
    assert "" + "/" == "/";
    if path != "" {
      NamesOf(path[0], path[1..]);
      assert path == [path[0]] + path[1..];
    }
  }

  /** A mount point carries the paths that begin with its names, each name whole; the root
      carries every path. */
  lemma CarriesExactly(point: string, path: string)
    ensures Carries(point, path) <==> point == "/" || Names(point) <= Names(path)
  {
    NamesDecide(point, path);
  }

  /** Points that carry the same path and are equally long are the same point. */
  lemma SameLengthSamePoint(p: string, q: string, path: string)
    requires Absolute(path) && |p| == |q| > 0 && Carries(p, path) && Carries(q, path)
    ensures p == q
  {
    assert p <= path && q <= path by {
      assert p <= p + "/" && q <= q + "/";
    }
    assert p == path[..|p|] && q == path[..|q|];
  }

  ghost predicate Longest(points: seq<string>, path: string, k: nat) {
    && k < |points| && Carries(points[k], path)
    && forall i :: 0 <= i < |points| && Carries(points[i], path) ==> |points[i]| <= |points[k]|
  }

  /** The reader of the read-only flag: of equally long points the later wins. */
  method LastLongest(points: seq<string>, path: string) returns (best: Option<nat>)
    ensures best.None? <==> forall i :: 0 <= i < |points| ==> !Carries(points[i], path)
    ensures best.Some? ==> Longest(points, path, best.value)
    ensures best.Some? ==> forall i :: best.value < i < |points| ==> !Longest(points, path, i)
  {
    best := None;
    for n := 0 to |points|
      invariant best.None? <==> forall i :: 0 <= i < n ==> !Carries(points[i], path)
      invariant best.Some? ==> best.value < n && Carries(points[best.value], path)
      invariant best.Some? ==> forall i :: 0 <= i < n && Carries(points[i], path) ==>
        |points[i]| <= |points[best.value]| && (i > best.value ==> |points[i]| < |points[best.value]|)
    {
      if Carries(points[n], path) && (best.None? || |points[n]| >= |points[best.value]|) {
        best := Some(n);
      }
    }
  }

  /** The medium check of the benchmark: of equally long points the first stays. */
  method FirstLongest(points: seq<string>, path: string) returns (best: Option<nat>)
    ensures best.None? <==> forall i :: 0 <= i < |points| ==> !Carries(points[i], path)
    ensures best.Some? ==> Longest(points, path, best.value)
    ensures best.Some? ==> forall i :: 0 <= i < best.value ==> !Longest(points, path, i)
  {
    best := None;
    var length := -1;
    for n := 0 to |points|
      invariant best.None? <==> forall i :: 0 <= i < n ==> !Carries(points[i], path)
      invariant best.Some? ==> best.value < n && Carries(points[best.value], path)
      invariant length == if best.None? then -1 else |points[best.value]|
      invariant best.Some? ==> forall i :: 0 <= i < n && Carries(points[i], path) ==>
        |points[i]| <= |points[best.value]| && (i < best.value ==> |points[i]| < |points[best.value]|)
    {
      if Carries(points[n], path) && |points[n]| > length {
        best := Some(n);
        length := |points[n]|;
      }
    }
  }

  /** The last and the first longest entry name the same mount point, and are the same entry
      unless that point is mounted twice. */
  lemma ReadersAgree(points: seq<string>, path: string, last: nat, first: nat)
    requires Absolute(path) && forall p :: p in points ==> p != ""
    requires Longest(points, path, last) && forall i :: last < i < |points| ==> !Longest(points, path, i)
    requires Longest(points, path, first) && forall i :: 0 <= i < first ==> !Longest(points, path, i)
    ensures points[last] == points[first]
    ensures last == first <==> forall i :: 0 <= i < |points| && points[i] == points[last] ==> i == last
  {
    assert points[last] in points;
    SameLengthSamePoint(points[last], points[first], path);
    forall i | 0 <= i < |points| && points[i] == points[last] ensures first <= i <= last {
      assert Longest(points, path, i);
    }
  }
}
