/** The text of a key file: `KeyValues.String` and `ReadKeyValues` of pkg/config/crypto.go. */
module KeyText {
  import opened GoText
  import opened Crypto

  /** The text of a key file with key bytes `b` and vector bytes `v`. */
  function TextOf(b: Bytes, v: Bytes): string {
    "key=" + HexEncode(b) + "\niv =" + HexEncode(v) + "\n"
  }

  function KeyString(kv: KeyValues): string {
    TextOf(kv.key, kv.iv)
  }

  /** The lines a scanner finds from `i` on. */
  function Lines(s: string, i: nat): seq<string>
    decreases |s| - i
  {
    if i >= |s| then []
    else
      var k := IndexFrom(s, i, '\n');
      if k == -1 then [s[i..]] else [s[i..k]] + Lines(s, k + 1)
  }

  /** What has been read so far. */
  datatype Partial = Partial(kv: KeyValues, gotKey: bool, gotIv: bool)

  const EMPTY := Partial(KeyValues(ZeroBytes(2 * BLOCK), ZeroBytes(BLOCK)), false, false)

  /** Go's `copy`: as many bytes as both sides have. */
  function Overlay(dst: Bytes, src: Bytes): (b: Bytes)
    ensures |b| == |dst|
  {
    if |src| >= |dst| then src[..|dst|] else src + dst[|src|..]
  }

  /** One line. The lengths of key and iv are compared but the comparison has no effect: the error
      goes to a variable that the branch itself declares. */
  function ReadLine(st: Partial, text: string): Result<Partial> {
    var line := TrimSpace(text);
    if |line| == 0 || line[0] == '#' then Ok(st)
    else
      var eq := IndexFrom(line, 0, '=');
      if eq == -1 then Err(NoSeparator)
      else
        var key, value := TrimSpace(line[..eq]), TrimSpace(line[eq + 1..]);
        if key == "salt" then Ok(st)
        else if key == "key" then
          match HexDecode(value)
          case Err(e) => Err(e)
          case Ok(b) => Ok(st.(kv := st.kv.(key := Overlay(st.kv.key, b)), gotKey := true))
        else if key == "iv" then
          match HexDecode(value)
          case Err(e) => Err(e)
          case Ok(b) => Ok(st.(kv := st.kv.(iv := Overlay(st.kv.iv, b)), gotIv := true))
        else Err(UnknownEntry)
  }

  function ReadLines(st: Partial, lines: seq<string>): Result<KeyValues>
    decreases |lines|
  {
    if |lines| == 0 then if st.gotKey && st.gotIv then Ok(st.kv) else Err(Incomplete)
    else
      match ReadLine(st, lines[0])
      case Err(e) => Err(e)
      case Ok(st') => ReadLines(st', lines[1..])
  }

  function Parse(contents: string): Result<KeyValues> {
    ReadLines(EMPTY, Lines(contents, 0))
  }

  method ReadKeyValues(contents: string) returns (r: Result<KeyValues>)
    ensures r == Parse(contents)
  {
    var kv := EMPTY.kv;
    var gotkey, gotiv := false, false;
    var lines := Lines(contents, 0);
    for n := 0 to |lines|
      invariant ReadLines(Partial(kv, gotkey, gotiv), lines[n..]) == Parse(contents)
    {
      assert lines[n..][1..] == lines[n + 1..];
      var line := TrimSpace(lines[n]);
      if |line| == 0 || line[0] == '#' {
        continue;
      }
      var eq := IndexFrom(line, 0, '=');
      if eq == -1 {
        return Err(NoSeparator);
      }
      var key, value := TrimSpace(line[..eq]), TrimSpace(line[eq + 1..]);
      if key == "salt" {
      } else if key == "key" {
        var b := HexDecode(value);
        if b.Err? {
          return Err(b.error);
        }
        kv := kv.(key := Overlay(kv.key, b.value));
        gotkey := true;
      } else if key == "iv" {
        var b := HexDecode(value);
        if b.Err? {
          return Err(b.error);
        }
        kv := kv.(iv := Overlay(kv.iv, b.value));
        gotiv := true;
      } else {
        return Err(UnknownEntry);
      }
    }
    if !gotkey || !gotiv {
      return Err(Incomplete);
    }
    return Ok(kv);
  }

  // ----- round trip -----

  lemma TrimKeeps(s: string)
    requires |s| == 0 || (!IsSpace(s[0]) && !IsSpace(s[|s| - 1]))
    ensures TrimSpace(s) == s
  {
  }

  lemma HexChars(b: Bytes, i: nat)
    requires i < 2 * |b|
    ensures FromHex(HexEncode(b)[i]) < 16
  {
    hide HexEncode, FromHex;
    HexPairUndo(b, i / 2);
  }

  lemma IndexIs(s: string, i: nat, k: nat, c: char)
    requires i <= k < |s| && s[k] == c && forall m | i <= m < k :: s[m] != c
    ensures IndexFrom(s, i, c) == k
  {
  }

  lemma HexTrims(b: Bytes)
    ensures TrimSpace(HexEncode(b)) == HexEncode(b) && '\n' !in HexEncode(b)
    ensures |b| > 0 ==> !IsSpace(HexEncode(b)[2 * |b| - 1])
  {
    hide HexEncode;
    if |b| > 0 {
      HexChars(b, 0);
      HexChars(b, 2 * |b| - 1);
    }
    TrimKeeps(HexEncode(b));
    forall m | 0 <= m < 2 * |b|
      ensures HexEncode(b)[m] != '\n'
    {
      HexChars(b, m);
    }
  }

  /** How a line of the file splits. */
  lemma LineSplits(name: string, h: string)
    requires |name| == 3 && '=' !in name && !IsSpace(name[0])
    requires (|h| > 0 ==> !IsSpace(h[|h| - 1])) && '\n' !in name && '\n' !in h
    ensures var line := name + "=" + h;
            && TrimSpace(line) == line && IndexFrom(line, 0, '=') == 3
            && line[..3] == name && line[4..] == h && '\n' !in line
  {
    var line := name + "=" + h;
    TrimKeeps(line);
    IndexIs(line, 0, 3, '=');
  }

  lemma KeyLine(st: Partial, b: Bytes)
    ensures ReadLine(st, "key=" + HexEncode(b)) == Ok(st.(kv := st.kv.(key := Overlay(st.kv.key, b)), gotKey := true))
  {
    hide HexEncode, HexDecode, TrimSpace, IndexFrom, Overlay;
    HexTrims(b);
    LineSplits("key", HexEncode(b));
    assert "key" + "=" == "key=";
    TrimKeeps("key");
    HexUndo(b);
  }

  lemma IvLine(st: Partial, v: Bytes)
    ensures ReadLine(st, "iv =" + HexEncode(v)) == Ok(st.(kv := st.kv.(iv := Overlay(st.kv.iv, v)), gotIv := true))
  {
    hide HexEncode, HexDecode, TrimSpace, IndexFrom, Overlay;
    HexTrims(v);
    LineSplits("iv ", HexEncode(v));
    assert "iv " + "=" == "iv =";
    TrimIv();
    HexUndo(v);
  }

  lemma TrimIv()
    ensures TrimSpace("iv ") == "iv"
  {
    var s := "iv ";
    assert s[0] == 'i' && s[2] == ' ' && s[..2] == "iv";
    TrimKeeps("iv");
    assert TrimLeft(s) == s && TrimRight(s) == TrimRight(s[..2]);
  }

  lemma TwoLines(a: string, b: string)
    requires '\n' !in a && '\n' !in b
    ensures Lines(a + "\n" + b + "\n", 0) == [a, b]
  {
    var s := a + "\n" + b + "\n";
    IndexIs(s, 0, |a|, '\n');
    IndexIs(s, |a| + 1, |s| - 1, '\n');
    assert s[0..|a|] == a && s[|a| + 1..|s| - 1] == b;
    assert Lines(s, |s|) == [];
    assert Lines(s, |a| + 1) == [b];
  }

  /** A file with a key and a vector of whatever lengths is accepted: what is missing is zero, what is too much
      is dropped. */
  lemma AnyLength(b: Bytes, v: Bytes)
    ensures Parse(TextOf(b, v)) == Ok(KeyValues(Overlay(ZeroBytes(2 * BLOCK), b), Overlay(ZeroBytes(BLOCK), v)))
  {
    hide ReadLine, HexEncode, TrimSpace, IndexFrom, Overlay;
    var x, y := "key=" + HexEncode(b), "iv =" + HexEncode(v);
    HexTrims(b);
    HexTrims(v);
    LineSplits("key", HexEncode(b));
    LineSplits("iv ", HexEncode(v));
    assert "key" + "=" + HexEncode(b) == x && "iv " + "=" + HexEncode(v) == y;
    assert TextOf(b, v) == x + "\n" + y + "\n";
    TwoLines(x, y);
    KeyLine(EMPTY, b);
    var st := EMPTY.(kv := EMPTY.kv.(key := Overlay(EMPTY.kv.key, b)), gotKey := true);
    IvLine(st, v);
    var kv := st.kv.(iv := Overlay(st.kv.iv, v));
    assert [x, y][1..] == [y] && [y][1..] == [];
    assert ReadLines(Partial(kv, true, true), []) == Ok(kv);
    assert ReadLines(st, [y]) == Ok(kv);
  }

  /** And yields exactly the key and the vector that it holds when these have the right lengths. */
  lemma AnyLengthIff(b: Bytes, v: Bytes)
    ensures var r := Parse(TextOf(b, v));
            r.Ok? && (r.value.key == b && r.value.iv == v <==> |b| == 2 * BLOCK && |v| == BLOCK)
  {
    hide Parse, TextOf;
    AnyLength(b, v);
  }

  /** A written key file is read back. */
  lemma ParseKeyString(kv: KeyValues)
    ensures Parse(KeyString(kv)) == Ok(kv)
  {
    hide Parse, HexEncode;
    AnyLength(kv.key, kv.iv);
    assert KeyString(kv) == TextOf(kv.key, kv.iv);
    assert Overlay(ZeroBytes(2 * BLOCK), kv.key) == kv.key && Overlay(ZeroBytes(BLOCK), kv.iv) == kv.iv;
  }
}
