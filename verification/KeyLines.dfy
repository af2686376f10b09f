/** Which lines of a key file matter and which are wrong: `ReadKeyValues` of pkg/config/crypto.go, for files of any
    number of lines. */
module KeyLines {
  import opened GoText
  import opened Crypto
  import opened KeyText

  // ----- lines -----

  /** Nothing, or whole lines. */
  predicate WholeLines(a: string) {
    a == "" || a[|a| - 1] == '\n'
  }

  lemma LinesAt(s: string, i: nat, k: nat)
    requires i <= k < |s| && s[k] == '\n' && forall m | i <= m < k :: s[m] != '\n'
    ensures Lines(s, i) == [s[i..k]] + Lines(s, k + 1)
  {
    IndexIs(s, i, k, '\n');
  }

  lemma LastLine(s: string, i: nat)
    requires i < |s| && forall m | i <= m < |s| :: s[m] != '\n'
    ensures Lines(s, i) == [s[i..]]
  {
  }

  lemma NoLine(s: string)
    ensures Lines(s, |s|) == []
  {
  }

  lemma LineInFront(a: string, u: string, i: nat, k: nat)
    requires i <= k < |a| && a[k] == '\n' && forall m | i <= m < k :: a[m] != '\n'
    ensures Lines(a + u, i) == [a[i..k]] + Lines(a + u, k + 1) && Lines(a, i) == [a[i..k]] + Lines(a, k + 1)
  {
    hide Lines;
    LinesAt(a, i, k);
    LinesAt(a + u, i, k);
    assert (a + u)[i..k] == a[i..k];
  }

  lemma {:induction false} LinesExtend(a: string, u: string, i: nat)
    requires WholeLines(a) && i <= |a|
    ensures Lines(a + u, i) == Lines(a, i) + Lines(a + u, |a|)
    decreases |a| - i
  {
    hide Lines;
    if i < |a| {
      var k := IndexFrom(a, i, '\n');
      assert k >= 0;
      LineInFront(a, u, i, k);
      LinesExtend(a, u, k + 1);
    } else {
      NoLine(a);
    }
  }

  lemma {:induction false} FeedShift(p: string, u: string, i: nat)
    ensures IndexFrom(p + u, |p| + i, '\n') == if IndexFrom(u, i, '\n') == -1 then -1 else |p| + IndexFrom(u, i, '\n')
    decreases |u| - i
  {
    if i < |u| {
      FeedShift(p, u, i + 1);
    }
  }

  lemma SliceShift(p: string, u: string, i: nat, k: nat)
    requires i <= k <= |u|
    ensures (p + u)[|p| + i..|p| + k] == u[i..k] && (p + u)[|p| + i..] == u[i..]
  {
  }

  lemma LineBehind(p: string, u: string, i: nat)
    requires i < |u|
    ensures var k := IndexFrom(u, i, '\n');
            if k == -1 then Lines(p + u, |p| + i) == Lines(u, i)
            else Lines(p + u, |p| + i) == [u[i..k]] + Lines(p + u, |p| + (k + 1)) && Lines(u, i) == [u[i..k]] + Lines(u, k + 1)
  {
    hide Lines;
    var k := IndexFrom(u, i, '\n');
    FeedShift(p, u, i);
    SliceShift(p, u, i, if k == -1 then i else k);
    if k == -1 {
      LastLine(u, i);
      LastLine(p + u, |p| + i);
    } else {
      LinesAt(u, i, k);
      LinesAt(p + u, |p| + i, |p| + k);
    }
  }

  lemma {:induction false} LinesShift(p: string, u: string, i: nat)
    requires i <= |u|
    ensures Lines(p + u, |p| + i) == Lines(u, i)
    decreases |u| - i
  {
    hide Lines;
    if i < |u| {
      LineBehind(p, u, i);
      var k := IndexFrom(u, i, '\n');
      if k >= 0 {
        LinesShift(p, u, k + 1);
      }
    } else {
      NoLine(u);
      NoLine(p + u);
    }
  }

  lemma LinesConcat(a: string, u: string)
    requires WholeLines(a)
    ensures Lines(a + u, 0) == Lines(a, 0) + Lines(u, 0)
  {
    hide Lines;
    LinesExtend(a, u, 0);
    LinesShift(a, u, 0);
    assert |a| + 0 == |a|;
  }

  /** A text has the line up to its first line feed, then the lines of the rest. */
  lemma LinesSteps(line: string, b: string)
    requires '\n' !in line
    ensures Lines("", 0) == []
    ensures line != "" ==> Lines(line, 0) == [line]
    ensures Lines(line + "\n" + b, 0) == [line] + Lines(b, 0)
  {
    assert Lines("", 0) == [];
    hide Lines;
    var s := line + "\n" + b;
    LinesAt(s, 0, |line|);
    assert s[0..|line|] == line;
    if line != "" {
      LastLine(line, 0);
    }
    assert s == (line + "\n") + b;
    LinesShift(line + "\n", b, 0);
    assert line[0..] == line;
  }

  lemma LineBetween(a: string, line: string, b: string)
    requires WholeLines(a) && '\n' !in line
    ensures Lines(a + (line + "\n" + b), 0) == Lines(a, 0) + ([line] + Lines(b, 0))
  {
    LinesConcat(a, line + "\n" + b);
    LinesSteps(line, b);
  }

  // ----- what lines do -----

  /** What has been read after some lines. */
  function ReadAll(st: Partial, lines: seq<string>): Result<Partial>
    decreases |lines|
  {
    if lines == [] then Ok(st)
    else
      match ReadLine(st, lines[0])
      case Err(e) => Err(e)
      case Ok(st') => ReadAll(st', lines[1..])
  }

  lemma {:induction false} ReadConcat(st: Partial, xs: seq<string>, ys: seq<string>)
    ensures ReadLines(st, xs + ys) ==
              match ReadAll(st, xs) case Err(e) => Err(e) case Ok(st') => ReadLines(st', ys)
    decreases |xs|
  {
    hide ReadLine;
    if xs == [] {
      assert xs + ys == ys;
    } else {
      assert (xs + ys)[1..] == xs[1..] + ys;
      var r := ReadLine(st, xs[0]);
      if r.Ok? {
        ReadConcat(r.value, xs[1..], ys);
      }
    }
  }

  /** The lines so far are right, though a key or a vector may still be missing. */
  predicate Fine(a: string) {
    Parse(a).Ok? || Parse(a).error == Incomplete
  }

  lemma ReadEnd(st: Partial, lines: seq<string>)
    ensures ReadLines(st, lines) ==
              match ReadAll(st, lines)
              case Err(e) => Err(e)
              case Ok(r) => if r.gotKey && r.gotIv then Ok(r.kv) else Err(Incomplete)
  {
    ReadConcat(st, lines, []);
    assert lines + [] == lines;
  }

  lemma {:induction false} NeverIncomplete(st: Partial, lines: seq<string>)
    ensures ReadAll(st, lines) != Err(Incomplete)
    decreases |lines|
  {
    hide TrimSpace, HexDecode, IndexFrom;
    if lines != [] {
      var r := ReadLine(st, lines[0]);
      if r.Ok? {
        NeverIncomplete(r.value, lines[1..]);
      } else {
        LineErrorKinds(st, lines[0]);
      }
    }
  }

  lemma LineErrorKinds(st: Partial, line: string)
    ensures ReadLine(st, line).Err? ==> ReadLine(st, line).error in {NoSeparator, BadHex, UnknownEntry}
  {
    hide TrimSpace, IndexFrom, HexRun, HexFill;
  }

  lemma FineIs(a: string)
    ensures Fine(a) <==> ReadAll(EMPTY, Lines(a, 0)).Ok?
  {
    hide ReadAll, ReadLines;
    ReadEnd(EMPTY, Lines(a, 0));
    NeverIncomplete(EMPTY, Lines(a, 0));
  }

  /** A line in the middle of a file. */
  lemma LineInside(a: string, line: string, b: string)
    requires WholeLines(a) && '\n' !in line && Fine(a)
    ensures var st := ReadAll(EMPTY, Lines(a, 0));
            && st.Ok?
            && Parse(a + (line + "\n" + b)) ==
                 (match ReadLine(st.value, line) case Err(e) => Err(e) case Ok(st') => ReadLines(st', Lines(b, 0)))
            && Parse(a + b) == ReadLines(st.value, Lines(b, 0))
  {
    hide ReadAll, ReadLine, Fine, Lines;
    FineIs(a);
    LineBetween(a, line, b);
    LinesConcat(a, b);
    ReadConcat(EMPTY, Lines(a, 0), [line] + Lines(b, 0));
    ReadConcat(EMPTY, Lines(a, 0), Lines(b, 0));
    assert ([line] + Lines(b, 0))[1..] == Lines(b, 0);
  }

  lemma AfterError(a: string, u: string)
    requires WholeLines(a) && !Fine(a)
    ensures Parse(a + u) == Parse(a)
  {
    hide ReadAll, Fine, Lines, ReadLines;
    FineIs(a);
    LinesConcat(a, u);
    ReadConcat(EMPTY, Lines(a, 0), Lines(u, 0));
    ReadEnd(EMPTY, Lines(a, 0));
  }

  // ----- the parts of a line -----

  lemma {:induction false} TrimRightKeeps(u: string, v: string)
    requires u != "" && !IsSpace(u[|u| - 1])
    ensures TrimRight(u + v) == u + TrimRight(v)
    decreases |v|
  {
    if v == "" {
      assert u + v == u;
    } else if IsSpace(v[|v| - 1]) {
      assert (u + v)[..|u + v| - 1] == u + v[..|v| - 1];
      TrimRightKeeps(u, v[..|v| - 1]);
    }
  }

  lemma TrimAgain(v: string)
    ensures TrimSpace(TrimRight(v)) == TrimSpace(v)
  {
    hide TrimLeft, TrimRight, Bare, TrimSpace;
    var b := RightSplits(v);
    var r := TrimRight(v);
    var t := TrimSpace(r);
    TrimIff(r, t);
    MoreBehind(r, t, b);
    TrimIff(v, t);
  }

  lemma MoreBehind(r: string, t: string, b: string)
    requires Between(r, t) && White(b)
    ensures Between(r + b, t)
  {
    hide White;
    var x: string, y: string :| White(x) && White(y) && r == x + (t + y);
    WhiteConcat(y, b);
    assert r + b == x + (t + (y + b));
  }

  /** A name that can stand before the `=`. */
  predicate Name(n: string) {
    n != "" && Bare(n) && '=' !in n && n[0] != '#'
  }

  function Field(w: string, name: string, x: string, value: string): string {
    w + (name + x + "=" + value)
  }

  lemma FieldTrimmed(w: string, name: string, x: string, value: string)
    requires White(w) && White(x) && Name(name)
    ensures TrimSpace(Field(w, name, x, value)) == name + x + "=" + TrimRight(value)
  {
    hide TrimLeft, TrimRight, Bare;
    BareEnds(name);
    var u := name + x + "=";
    assert (u + value)[0] == name[0];
    TrimLeftIs(w, u + value);
    assert u[|u| - 1] == '=';
    TrimRightKeeps(u, value);
  }

  lemma FieldSplits(w: string, name: string, x: string, value: string)
    requires White(w) && White(x) && Name(name)
    ensures var line := TrimSpace(Field(w, name, x, value));
            && line != "" && line[0] != '#' && IndexFrom(line, 0, '=') == |name + x|
            && TrimSpace(line[..|name + x|]) == name && TrimSpace(line[|name + x| + 1..]) == TrimSpace(value)
  {
    hide TrimSpace, TrimLeft, TrimRight, Bare, IndexFrom;
    FieldTrimmed(w, name, x, value);
    var line, n := TrimSpace(Field(w, name, x, value)), |name + x|;
    assert line[0] == name[0] && line[n] == '=';
    forall m | 0 <= m < n ensures line[m] != '=' {
      assert line[m] == (name + x)[m];
    }
    IndexIs(line, 0, n, '=');
    assert line[..n] == "" + (name + x) && line[n + 1..] == TrimRight(value);
    assert White("");
    assert Between(line[..n], name);
    TrimIff(line[..n], name);
    TrimAgain(value);
  }

  lemma ReadField(st: Partial, w: string, name: string, x: string, value: string)
    requires White(w) && White(x) && Name(name)
    ensures var h, r := HexDecode(TrimSpace(value)), ReadLine(st, Field(w, name, x, value));
            && (name == "salt" ==> r == Ok(st))
            && (name in {"key", "iv"} && h.Err? ==> r == Err(BadHex))
            && (name == "key" && h.Ok? ==> r == Ok(st.(kv := st.kv.(key := Overlay(st.kv.key, h.value)), gotKey := true)))
            && (name == "iv" && h.Ok? ==> r == Ok(st.(kv := st.kv.(iv := Overlay(st.kv.iv, h.value)), gotIv := true)))
            && (name !in {"salt", "key", "iv"} ==> r == Err(UnknownEntry))
  {
    hide TrimSpace, IndexFrom, Overlay, HexRun, HexFill, Field;
    FieldSplits(w, name, x, value);
  }

  lemma Names()
    ensures Name("salt") && Name("key") && Name("iv")
  {
    BareEnds("salt");
    BareEnds("key");
    BareEnds("iv");
  }

  // ----- results -----

  lemma BlankRead(st: Partial, w: string, x: string)
    requires White(w)
    ensures ReadLine(st, w) == Ok(st) && ReadLine(st, w + ("#" + x)) == Ok(st)
  {
    hide TrimLeft, TrimRight, Bare, IndexFrom;
    assert "" + ("" + w) == w && White("");
    assert Between(w, "");
    BareEnds("");
    TrimIff(w, "");
    TrimLeftIs(w, "#" + x);
    TrimRightKeeps("#", x);
  }

  /** A blank line, a comment or a salt makes no difference anywhere in a file. */
  lemma Ignored(a: string, line: string, b: string, w: string, x: string, y: string)
    requires WholeLines(a) && '\n' !in line && White(w) && White(x)
    requires line == w || line == w + ("#" + y) || line == Field(w, "salt", x, y)
    ensures Parse(a + (line + "\n" + b)) == Parse(a + b)
  {
    hide Parse, ReadLine, Fine, Field, White;
    if Fine(a) {
      var st := ReadAll(EMPTY, Lines(a, 0));
      LineInside(a, line, b);
      BlankRead(st.value, w, y);
      Names();
      ReadField(st.value, w, "salt", x, y);
    } else {
      AfterError(a, line + "\n" + b);
      AfterError(a, b);
    }
  }

  /** The first wrong line decides the error: a line with text but no `=`, another name than `salt`, `key` and `iv`,
      or something else than hexadecimal digits behind `key` or `iv`. */
  lemma WrongLine(a: string, line: string, b: string, w: string, name: string, x: string, value: string)
    requires WholeLines(a) && '\n' !in line && Fine(a) && White(w) && White(x) && Name(name)
    ensures '=' !in line && TrimSpace(line) != "" && TrimSpace(line)[0] != '#' ==>
              Parse(a + (line + "\n" + b)) == Err(NoSeparator)
    ensures line == Field(w, name, x, value) && name !in {"salt", "key", "iv"} ==>
              Parse(a + (line + "\n" + b)) == Err(UnknownEntry)
    ensures line == Field(w, name, x, value) && name in {"key", "iv"} && HexDecode(TrimSpace(value)).Err? ==>
              Parse(a + (line + "\n" + b)) == Err(BadHex)
  {
    hide Parse, ReadLine, Fine, Field, White, TrimSpace, HexDecode, Name, Lines;
    LineInside(a, line, b);
    var st := ReadAll(EMPTY, Lines(a, 0)).value;
    ReadField(st, w, name, x, value);
    if '=' !in line && TrimSpace(line) != "" && TrimSpace(line)[0] != '#' {
      NoEquals(st, line);
    }
  }

  lemma NoEquals(st: Partial, line: string)
    requires '=' !in line && TrimSpace(line) != "" && TrimSpace(line)[0] != '#'
    ensures ReadLine(st, line) == Err(NoSeparator)
  {
    hide TrimLeft, TrimRight, HexDecode, Bare;
    var t := TrimSpace(line);
    TrimIff(line, t);
    var a: string, b: string :| White(a) && White(b) && line == a + (t + b);
    forall m | 0 <= m < |t| ensures t[m] != '=' {
      assert line[|a| + m] == t[m];
    }
  }

  /** A further key or vector takes the place of the one before, as far as it reaches. */
  lemma LaterLine(a: string, w: string, x: string, value: string, h: Bytes)
    requires WholeLines(a) && White(w) && White(x) && '\n' !in w + x + value
    requires Parse(a).Ok? && HexDecode(TrimSpace(value)) == Ok(h)
    ensures var kv := Parse(a).value;
            && Parse(a + (Field(w, "key", x, value) + "\n")) == Ok(kv.(key := Overlay(kv.key, h)))
            && Parse(a + (Field(w, "iv", x, value) + "\n")) == Ok(kv.(iv := Overlay(kv.iv, h)))
  {
    hide Parse, ReadLine, White, TrimSpace, HexDecode, Name, Overlay, Lines;
    var k, v := Field(w, "key", x, value), Field(w, "iv", x, value);
    assert '\n' !in k && '\n' !in v by { NoFeed(w, x, value); }
    hide Field;
    Names();
    assert a + "" == a && k + "\n" + "" == k + "\n" && v + "\n" + "" == v + "\n";
    assert Lines("", 0) == [] by { LinesSteps("", ""); }
    var st := ReadAll(EMPTY, Lines(a, 0));
    LineInside(a, k, "");
    LineInside(a, v, "");
    ReadField(st.value, w, "key", x, value);
    ReadField(st.value, w, "iv", x, value);
  }

  lemma NoFeed(w: string, x: string, value: string)
    requires '\n' !in w + x + value
    ensures '\n' !in Field(w, "key", x, value) && '\n' !in Field(w, "iv", x, value)
  {
    assert forall c | c in w + x + value :: c != '\n';
    assert forall c | c in w || c in x || c in value :: c in w + x + value;
  }

  /** A copied key or vector: the bytes that were read, then what was there before. */
  lemma OverlayAt(dst: Bytes, src: Bytes, i: nat)
    requires i < |dst|
    ensures Overlay(dst, src)[i] == if i < |src| then src[i] else dst[i]
  {
  }

  ghost predicate IsField(line: string, name: string) {
    exists w: string, x: string, value: string :: White(w) && White(x) && line == Field(w, name, x, value)
  }

  lemma LineIsField(line: string, st: Partial)
    requires ReadLine(st, line).Ok?
    ensures ReadLine(st, line).value.gotKey && !st.gotKey ==> IsField(line, "key")
    ensures ReadLine(st, line).value.gotIv && !st.gotIv ==> IsField(line, "iv")
  {
    hide TrimSpace, HexDecode, Overlay, IsField, IndexFrom;
    var t := TrimSpace(line);
    var eq := IndexFrom(t, 0, '=');
    if eq >= 0 {
      SplitIsField(line, eq);
    }
  }

  lemma SplitIsField(line: string, eq: nat)
    requires var t := TrimSpace(line); eq < |t| && t[eq] == '='
    ensures IsField(line, TrimSpace(TrimSpace(line)[..eq]))
  {
    hide TrimSpace, Bare, White, IsField;
    var t := TrimSpace(line);
    var name, tail := t[..eq], t[eq + 1..];
    assert t == name + ("=" + tail);
    TrimIff(line, t);
    var a: string, b: string :| White(a) && White(b) && line == a + (t + b);
    var n := TrimSpace(name);
    TrimIff(name, n);
    var c: string, d: string :| White(c) && White(d) && name == c + (n + d);
    hide *;
    WhiteConcat(a, c);
    FieldParts(a, c, n, d, tail, b);
    FieldIs(line, a + c, n, d, tail + b);
  }

  lemma FieldIs(line: string, w: string, name: string, x: string, value: string)
    requires White(w) && White(x) && line == Field(w, name, x, value)
    ensures IsField(line, name)
  {
  }

  lemma FieldParts(a: string, c: string, n: string, d: string, v: string, b: string)
    ensures a + ((c + (n + d) + ("=" + v)) + b) == Field(a + c, n, d, v + b)
  {
  }

  lemma WhiteConcat(a: string, b: string)
    requires White(a) && White(b)
    ensures White(a + b)
  {
  }

  ghost predicate HasField(lines: seq<string>, name: string) {
    exists i | 0 <= i < |lines| :: IsField(lines[i], name)
  }

  lemma {:induction false} GotMeansField(st: Partial, lines: seq<string>)
    requires ReadAll(st, lines).Ok?
    ensures ReadAll(st, lines).value.gotKey && !st.gotKey ==> HasField(lines, "key")
    ensures ReadAll(st, lines).value.gotIv && !st.gotIv ==> HasField(lines, "iv")
    decreases |lines|
  {
    hide ReadLine, IsField;
    if lines != [] {
      LineIsField(lines[0], st);
      GotMeansField(ReadLine(st, lines[0]).value, lines[1..]);
      assert forall i | 0 <= i < |lines[1..]| :: lines[1..][i] == lines[i + 1];
    }
  }

  /** A file that is accepted has a line for the key and one for the vector. */
  lemma BothThere(text: string)
    requires Parse(text).Ok?
    ensures HasField(Lines(text, 0), "key") && HasField(Lines(text, 0), "iv")
  {
    hide ReadAll, HasField, ReadLines, Lines;
    ReadEnd(EMPTY, Lines(text, 0));
    GotMeansField(EMPTY, Lines(text, 0));
  }

  predicate Digits(h: string, n: nat) {
    |h| == n && forall i | 0 <= i < n :: '0' <= h[i] <= '9' || 'A' <= h[i] <= 'F'
  }

  /** A printed key file has two lines: 64 digits behind `key=`, 32 behind `iv =`. */
  lemma PrintedKey(kv: KeyValues) returns (k: string, v: string)
    ensures KeyString(kv) == "key=" + k + "\n" + "iv =" + v + "\n"
    ensures Digits(k, 64) && HexDecode(k).Ok? && HexDecode(k).value == kv.key
    ensures Digits(v, 32) && HexDecode(v).Ok? && HexDecode(v).value == kv.iv
  {
    hide HexDecode;
    k, v := HexEncode(kv.key), HexEncode(kv.iv);
    HexUndo(kv.key);
    HexUndo(kv.iv);
  }
}
