/** Key files and encoded settings: pkg/config/keyfiles.go, and `expand`, `expandEncoded` and
    `splitEncFields` of pkg/config/internal.go. */
module KeyFiles {
  import opened Expansion
  import opened GoText
  import opened Crypto
  import opened KeyText
  import opened Optional

  /** What the code reads from its surroundings. `clean` is `path.Clean`; `raw` is everything
      `expandRawString` finds for a name. */
  datatype World = World(aes: Aes, files: map<string, string>, home: Option<string>,
                         clean: string -> string, raw: string -> string)

  // ----- paths -----

  function Join(clean: string -> string, dir: string, rest: string): string {
    if rest == "" then clean(dir) else if dir == "" then clean(rest) else clean(dir + "/" + rest)
  }

  function AbbreviateHome(w: World, p: string): string {
    if w.home.None? then w.clean(p)
    else if w.home.value <= p then "~" + p[|w.home.value|..]
    else w.clean(p)
  }

  function ResolveHome(w: World, p: string): string {
    if !("~/" <= p) then p
    else if w.home.None? then p[2..]
    else Join(w.clean, w.home.value, p[2..])
  }

  /** The path of a file that the abbreviation does not confuse: a path that starts with the text of
      the home directory lies below it, any other does not look abbreviated already. */
  predicate Survives(w: World, p: string) {
    if w.home.Some? && w.home.value <= p then w.home.value + "/" <= p else !("~/" <= p)
  }

  lemma Tilde(x: string)
    ensures "~/" <= "~" + x <==> "/" <= x
    ensures "/" <= x ==> "/" + ("~" + x)[2..] == x
  {
    var s := "~" + x;
    if "/" <= x {
      assert x == "/" + x[1..] && s == "~/" + x[1..];
    } else {
      assert |x| > 0 ==> s[1] == x[0];
      assert "~/"[1] == '/';
    }
  }

  lemma Under(h: string, x: string)
    ensures h + "/" <= h + x <==> "/" <= x
  {
    if "/" <= x {
      assert h + x == h + "/" + x[1..];
    } else {
      assert |x| > 0 ==> (h + x)[|h|] == x[0];
      assert (h + "/")[|h|] == '/';
    }
  }

  /** Below the text of the home directory. */
  lemma HomeBelow(w: World, p: string)
    requires w.home.Some? && "/" <= w.home.value <= p && w.clean(p) == p && p[|p| - 1] != '/'
    ensures ResolveHome(w, AbbreviateHome(w, p)) == p <==> w.home.value + "/" <= p
  {
    var h := w.home.value;
    var x := p[|h|..];
    assert p == h + x && p[0] == h[0] == '/';
    Tilde(x);
    Under(h, x);
    if "/" <= x {
      var y := ("~" + x)[2..];
      assert p[|p| - 1] == x[|x| - 1] && y != "";
      assert h + "/" + y == h + ("/" + y) == p;
    } else {
      assert ("~" + x)[0] != p[0];
    }
  }

  /** A path that looks abbreviated comes back as another one. */
  lemma HomeMistaken(w: World, p: string)
    requires "~/" <= p && w.home.Some? && "/" <= w.home.value
    requires forall q :: "/" <= q ==> "/" <= w.clean(q)
    ensures ResolveHome(w, p) != p
  {
    var q := w.home.value + "/" + p[2..];
    assert q[0] == w.home.value[0] == '/';
    assert w.clean(q)[0] == '/' && w.clean(w.home.value)[0] == '/' && p[0] == '~';
  }

  /** Abbreviating the clean path of a file and resolving it again leads to the same file exactly
      when the path survives; `/home/ab` does not when the home directory is `/home/a`. */
  lemma HomeRoundTrip(w: World, p: string)
    requires w.clean(p) == p && p != "" && p[|p| - 1] != '/'
    requires w.home.Some? ==> "/" <= w.home.value
    requires forall q :: "/" <= q ==> "/" <= w.clean(q)
    ensures ResolveHome(w, AbbreviateHome(w, p)) == p <==> Survives(w, p)
  {
    if w.home.Some? && w.home.value <= p {
      HomeBelow(w, p);
    } else if "~/" <= p && w.home.None? {
      assert |p[2..]| < |p|;
    } else if "~/" <= p {
      HomeMistaken(w, p);
    }
  }

  /** The two forms of a path. */
  lemma HomeForms(w: World, h: string, x: string, p: string)
    requires w.home == Some(h)
    ensures AbbreviateHome(w, h + x) == "~" + x
    ensures !(h <= p) ==> AbbreviateHome(w, p) == w.clean(p)
    ensures h != "" && x != "" ==> ResolveHome(w, "~/" + x) == w.clean(h + "/" + x)
    ensures h != "" ==> ResolveHome(w, "~/") == w.clean(h)
    ensures !("~/" <= p) ==> ResolveHome(w, p) == p
  {
    assert (h + x)[|h|..] == x && ("~/" + x)[2..] == x && "~/"[2..] == "";
  }

  // ----- reading, encoding and decoding with a key file -----

  function ReadKey(files: map<string, string>, path: string): Result<KeyValues> {
    if path in files then Parse(files[path]) else Err(NotExist)
  }

  function EncodeString(w: World, path: string, plaintext: Bytes, expandable: bool): Result<string> {
    match ReadKey(w.files, path)
    case Err(e) => Err(e)
    case Ok(kv) =>
      var e := Encode(w.aes, kv, plaintext);
      Ok(if expandable then "${enc:" + AbbreviateHome(w, path) + ":" + PREFIX + e + "}" else PREFIX + e)
  }

  function DecodeString(w: World, path: string, input: string): Result<Bytes> {
    match ReadKey(w.files, path)
    case Err(e) => Err(e)
    case Ok(kv) => Decode(w.aes, kv, input)
  }

  /** A key file that is missing or does not parse can neither encode nor decode. */
  lemma KeyFileErrors(w: World, path: string, input: string, secret: Bytes, expandable: bool)
    ensures path !in w.files ==>
              DecodeString(w, path, input) == Err(NotExist) && EncodeString(w, path, secret, expandable) == Err(NotExist)
    ensures path in w.files && Parse(w.files[path]).Err? ==>
              && DecodeString(w, path, input) == Err(Parse(w.files[path]).error)
              && EncodeString(w, path, secret, expandable) == Err(Parse(w.files[path]).error)
    ensures path in w.files && Parse(w.files[path]).Ok? ==>
              && DecodeString(w, path, input) == Decode(w.aes, Parse(w.files[path]).value, input)
              && EncodeString(w, path, secret, false) == Ok(PREFIX + Encode(w.aes, Parse(w.files[path]).value, secret))
  {
  }

  // ----- expanding encoded values -----

  datatype Options = Options(noExpand: bool, noDecode: bool, trimSpace: bool, useKeyFile: string,
                             initialValue: string, defaultValue: string)

  function SplitEncFields(enc: string): (string, string) {
    var c := LastIndexBefore(enc, |enc|, ':');
    if c == -1 then ("", "") else (enc[..c], enc[c + 1..])
  }

  /** `strings.Split` on one byte, from `i` on. */
  function Split(s: string, i: nat, c: char): (parts: seq<string>)
    requires i <= |s|
    ensures |parts| > 0
    decreases |s| - i
  {
    var k := IndexFrom(s, i, c);
    if k == -1 then [s[i..]] else [s[i..k]] + Split(s, k + 1, c)
  }

  function Joined(parts: seq<string>, c: char): string
    requires |parts| > 0
  {
    if |parts| == 1 then parts[0] else parts[0] + [c] + Joined(parts[1..], c)
  }

  predicate Without(parts: seq<string>, c: char) {
    forall i | 0 <= i < |parts| :: c !in parts[i]
  }

  lemma WithoutCons(p: string, rest: seq<string>, c: char)
    requires |rest| > 0
    ensures Without([p] + rest, c) <==> c !in p && Without(rest, c)
    ensures Joined([p] + rest, c) == p + [c] + Joined(rest, c)
  {
    var all := [p] + rest;
    assert all[1..] == rest;
    if Without(all, c) {
      assert c !in all[0];
      forall i | 0 <= i < |rest| ensures c !in rest[i] {
        assert all[i + 1] == rest[i];
      }
    }
    if c !in p && Without(rest, c) {
      forall i | 0 <= i < |all| ensures c !in all[i] {
        assert i > 0 ==> all[i] == rest[i - 1];
      }
    }
  }

  lemma {:induction false} SplitJoins(s: string, i: nat, c: char)
    requires i <= |s|
    ensures Without(Split(s, i, c), c) && Joined(Split(s, i, c), c) == s[i..]
    decreases |s| - i
  {
    hide Without;
    var k := IndexFrom(s, i, c);
    if k == -1 {
      OnePart(s[i..], c);
    } else {
      SplitJoins(s, k + 1, c);
      WithoutCons(s[i..k], Split(s, k + 1, c), c);
      assert s[i..k] + [c] + s[k + 1..] == s[i..];
    }
  }

  lemma OnePart(s: string, c: char)
    ensures Without([s], c) <==> c !in s
    ensures Joined([s], c) == s
  {
    assert [s][0] == s;
  }

  lemma LastPart(s: string, i: nat, c: char)
    requires i <= |s| && c !in s[i..]
    ensures Split(s, i, c) == [s[i..]]
  {
    forall m | i <= m < |s| ensures s[m] != c {
      assert s[i..][m - i] == s[m];
    }
  }

  lemma PartFirst(s: string, i: nat, c: char, p: string, r: string)
    requires i <= |s| && c !in p && s[i..] == p + [c] + r
    ensures var k := i + |p|; k < |s| && s[k + 1..] == r && Split(s, i, c) == [p] + Split(s, k + 1, c)
  {
    hide Split;
    var k, u := i + |p|, p + [c] + r;
    assert s[k] == s[i..][|p|] == c && s[i..k] == u[..|p|] == p && s[k + 1..] == u[|p| + 1..] == r;
    forall m | i <= m < k ensures s[m] != c {
      assert s[m] == s[i..][m - i] == p[m - i];
    }
    IndexIs(s, i, k, c);
    SplitStep(s, i, c);
  }

  lemma SplitStep(s: string, i: nat, c: char)
    requires i <= |s| && IndexFrom(s, i, c) >= 0
    ensures var k := IndexFrom(s, i, c); Split(s, i, c) == [s[i..k]] + Split(s, k + 1, c)
  {
  }

  lemma {:induction false} JoinSplits(s: string, i: nat, c: char, parts: seq<string>)
    requires i <= |s| && |parts| > 0 && Without(parts, c) && Joined(parts, c) == s[i..]
    ensures Split(s, i, c) == parts
    decreases |parts|
  {
    hide Without, Split;
    if |parts| == 1 {
      assert parts == [s[i..]];
      OnePart(parts[0], c);
      LastPart(s, i, c);
    } else {
      var p, rest := parts[0], parts[1..];
      assert parts == [p] + rest;
      WithoutCons(p, rest, c);
      PartFirst(s, i, c, p, Joined(rest, c));
      JoinSplits(s, i + |p| + 1, c, rest);
    }
  }

  /** Splitting yields the one list of parts without the separator that joined give the text. */
  lemma SplitIff(s: string, c: char, parts: seq<string>)
    requires |parts| > 0
    ensures Split(s, 0, c) == parts <==> Without(parts, c) && Joined(parts, c) == s
  {
    hide Without, Joined;
    SplitJoins(s, 0, c);
    assert s[0..] == s;
    if Without(parts, c) && Joined(parts, c) == s {
      JoinSplits(s, 0, c, parts);
    }
  }

  /** The result of the first key file from `n` on that decodes the value. */
  function FirstDecoded(w: World, paths: seq<string>, n: nat, value: string): string
    decreases |paths| - n
  {
    if n >= |paths| then ""
    else
      match DecodeString(w, ResolveHome(w, paths[n]), value)
      case Ok(p) => p
      case Err(_) => FirstDecoded(w, paths, n + 1, value)
  }

  function EncodedValue(w: World, s: string): string {
    var v := SplitEncFields(s).1;
    if PREFIX <= v then v else w.raw(v)
  }

  function EncodedPaths(opts: Options, s: string): seq<string> {
    Split(if opts.useKeyFile != "" then opts.useKeyFile else SplitEncFields(s).0, 0, '|')
  }

  function Encoded(w: World, opts: Options, s: string): string {
    var v := EncodedValue(w, s);
    if v == "" then "" else FirstDecoded(w, EncodedPaths(opts, s), 0, v)
  }

  method ExpandEncoded(w: World, opts: Options, s: string) returns (value: string)
    ensures value == Encoded(w, opts, s)
  {
    var (keyfiles, encodedValue) := SplitEncFields(s);
    if opts.useKeyFile != "" {
      keyfiles := opts.useKeyFile;
    }
    if !(PREFIX <= encodedValue) {
      encodedValue := w.raw(encodedValue);
    }
    if |encodedValue| == 0 {
      return "";
    }
    var paths := Split(keyfiles, 0, '|');
    for n := 0 to |paths|
      invariant FirstDecoded(w, paths, n, encodedValue) == FirstDecoded(w, paths, 0, encodedValue)
    {
      var p := DecodeString(w, ResolveHome(w, paths[n]), encodedValue);
      if p.Err? {
        continue;
      }
      return p.value;
    }
    return "";
  }

  /** Key file `n` decodes the value to `v`; none before it decodes it. */
  predicate DecodesFirst(w: World, paths: seq<string>, n: nat, value: string, v: string) {
    && n < |paths| && DecodeString(w, ResolveHome(w, paths[n]), value) == Ok(v)
    && forall k | 0 <= k < n :: DecodeString(w, ResolveHome(w, paths[k]), value).Err?
  }

  predicate NoneDecodes(w: World, paths: seq<string>, value: string) {
    forall k | 0 <= k < |paths| :: DecodeString(w, ResolveHome(w, paths[k]), value).Err?
  }

  lemma FirstDecodedStep(w: World, paths: seq<string>, n: nat, value: string)
    requires n < |paths|
    ensures var d := DecodeString(w, ResolveHome(w, paths[n]), value);
            FirstDecoded(w, paths, n, value) == if d.Ok? then d.value else FirstDecoded(w, paths, n + 1, value)
  {
    hide DecodeString, ResolveHome;
  }

  lemma {:induction false} FirstDecodedIs(w: World, paths: seq<string>, n: nat, value: string)
    requires n <= |paths| && forall k | 0 <= k < n :: DecodeString(w, ResolveHome(w, paths[k]), value).Err?
    ensures var r := FirstDecoded(w, paths, n, value);
            (exists i :: DecodesFirst(w, paths, i, value, r)) || (r == "" && NoneDecodes(w, paths, value))
    decreases |paths| - n
  {
    hide DecodeString, ResolveHome;
    if n < |paths| {
      FirstDecodedStep(w, paths, n, value);
      hide FirstDecoded;
      var d := DecodeString(w, ResolveHome(w, paths[n]), value);
      if d.Ok? {
        assert DecodesFirst(w, paths, n, value, FirstDecoded(w, paths, n, value));
      } else {
        FirstDecodedIs(w, paths, n + 1, value);
      }
    }
  }

  lemma OneFirst(w: World, paths: seq<string>, m: nat, n: nat, value: string, u: string, v: string)
    requires DecodesFirst(w, paths, m, value, u)
    ensures DecodesFirst(w, paths, n, value, v) ==> u == v
    ensures !NoneDecodes(w, paths, value)
  {
    hide DecodeString, ResolveHome;
  }

  /** The key files of an encoded value, separated by `|`, are tried one after the other: the value is what one of
      them decodes it to that none before it decodes, and nothing when none does. What is decoded is the text behind
      the last colon, or what that stands for when it lacks the prefix. */
  lemma EncodedIff(w: World, opts: Options, keyfiles: string, value: string, paths: seq<string>, v: string)
    requires ':' !in value && |paths| > 0 && Without(paths, '|')
    requires Joined(paths, '|') == if opts.useKeyFile != "" then opts.useKeyFile else keyfiles
    ensures var text := if PREFIX <= value then value else w.raw(value);
            Encoded(w, opts, keyfiles + (":" + value)) == v <==>
              if text == "" then v == ""
              else (exists n :: DecodesFirst(w, paths, n, text, v)) || (v == "" && NoneDecodes(w, paths, text))
  {
    hide DecodesFirst, NoneDecodes, Split, SplitEncFields, DecodeString, Without, Joined, FirstDecoded;
    SplitLast(keyfiles, value);
    SplitIff(if opts.useKeyFile != "" then opts.useKeyFile else keyfiles, '|', paths);
    FirstDecodedIff(w, paths, if PREFIX <= value then value else w.raw(value), v);
  }

  lemma FirstDecodedIff(w: World, paths: seq<string>, text: string, v: string)
    ensures FirstDecoded(w, paths, 0, text) == v <==>
              (exists n :: DecodesFirst(w, paths, n, text, v)) || (v == "" && NoneDecodes(w, paths, text))
  {
    hide DecodesFirst, NoneDecodes, FirstDecoded;
    var r := FirstDecoded(w, paths, 0, text);
    FirstDecodedIs(w, paths, 0, text);
    forall m, n, u | DecodesFirst(w, paths, m, text, r) && DecodesFirst(w, paths, n, text, u) ensures u == r {
      OneFirst(w, paths, m, n, text, r, u);
    }
    forall m, u | DecodesFirst(w, paths, m, text, u) ensures !NoneDecodes(w, paths, text) {
      OneFirst(w, paths, m, m, text, u, u);
    }
  }

  /** Without a colon there are neither key files nor a value. */
  lemma EncodedWithoutColon(w: World, opts: Options, s: string)
    requires ':' !in s
    ensures Encoded(w, opts, s) == Encoded(w, opts, ":")
  {
    hide FirstDecoded;
    LastIndexIs(":", 1, 0, ':');
    assert ":"[..0] == "" && ":"[0 + 1..] == "";
    assert SplitEncFields(":") == ("", "") == SplitEncFields(s);
    hide SplitEncFields;
  }

  /** The mapping that `expand` hands to the expansion loop. */
  function Mapping(w: World, opts: Options): string -> string {
    (s: string) =>
      if "enc:" <= s then if opts.noDecode then "${" + s + "}" else Encoded(w, opts, s[4..])
      else w.raw(s)
  }

  function Finish(opts: Options, value: string): string {
    var v := if opts.trimSpace then TrimSpace(value) else value;
    if |v| == 0 then opts.defaultValue else v
  }

  /** `expand` for string values. */
  function ExpandWith(w: World, opts: Options, input: string): string {
    if opts.noExpand then
      if input != "" then input else if opts.initialValue != "" then opts.initialValue else opts.defaultValue
    else
      Finish(opts, Expand(if input == "" then opts.initialValue else input, Mapping(w, opts)))
  }

  // ----- the round trip -----

  lemma HexIsPlain(b: Bytes)
    ensures forall i | 0 <= i < |HexEncode(b)| :: PlainChar(HexEncode(b)[i]) && HexEncode(b)[i] != ':'
  {
    forall i: nat | i < 2 * |b|
      ensures PlainChar(HexEncode(b)[i]) && HexEncode(b)[i] != ':'
    {
      HexChars(b, i);
    }
  }

  /** The text between the braces of an encoded setting. */
  function EncName(keyfile: string, hex: string): string {
    "enc:" + (keyfile + (":+encs+" + hex))
  }

  lemma EncNameBalanced(keyfile: string, b: Bytes)
    requires Balanced(keyfile)
    ensures Balanced(EncName(keyfile, HexEncode(b)))
  {
    hide Closed, HexEncode;
    var tail := ":+encs+" + HexEncode(b);
    HexIsPlain(b);
    PlainBalanced("enc:");
    forall i | 0 <= i < |tail|
      ensures PlainChar(tail[i])
    {
      if i >= 7 {
        assert tail[i] == HexEncode(b)[i - 7];
      } else {
        assert tail[i] == ":+encs+"[i];
      }
    }
    PlainBalanced(tail);
    ClosedAppend(keyfile, START, tail);
    assert Closed(keyfile + tail, START);
    ClosedAppend("enc:", START, keyfile + tail);
    assert Closed("enc:" + (keyfile + tail), START);
  }

  lemma LastIndexIs(s: string, i: nat, k: nat, c: char)
    requires k < i <= |s| && s[k] == c && forall m | k < m < i :: s[m] != c
    ensures LastIndexBefore(s, i, c) == k
  {
  }

  /** Splitting at the last colon finds the key file, whatever colons its path has. */
  lemma SplitEncName(keyfile: string, b: Bytes)
    ensures SplitEncFields(EncName(keyfile, HexEncode(b))[4..]) == (keyfile, PREFIX + HexEncode(b))
  {
    hide HexEncode;
    HexIsPlain(b);
    DropEnc(keyfile, HexEncode(b));
    SplitLast(keyfile, PREFIX + HexEncode(b));
    SpellPrefix(HexEncode(b));
  }

  lemma DropEnc(keyfile: string, h: string)
    ensures EncName(keyfile, h)[4..] == keyfile + (":+encs+" + h)
  {
  }

  lemma SpellPrefix(h: string)
    ensures ":+encs+" + h == ":" + (PREFIX + h)
  {
  }

  lemma SplitLast(a: string, b: string)
    requires ':' !in b
    ensures SplitEncFields(a + (":" + b)) == (a, b)
  {
    var s := a + (":" + b);
    assert forall m | |a| < m < |s| :: s[m] == b[m - |a| - 1];
    LastIndexIs(s, |s|, |a|, ':');
    assert s[..|a|] == a && s[|a| + 1..] == b;
  }

  lemma SplitOne(s: string, c: char)
    requires c !in s
    ensures Split(s, 0, c) == [s]
  {
    assert s[0..] == s;
  }

  /** What decoding the encoded setting yields: the secret if it is UTF-8, nothing otherwise. */
  function Recovered(secret: Bytes): string {
    if ValidFrom(secret, 0) then secret else ""
  }

  lemma EncodedDecodes(w: World, opts: Options, path: string, secret: Bytes)
    requires w.aes.Bijective() && ReadKey(w.files, path).Ok?
    requires opts.useKeyFile == "" && '|' !in AbbreviateHome(w, path)
    requires ResolveHome(w, AbbreviateHome(w, path)) == path
    ensures var e := Encode(w.aes, ReadKey(w.files, path).value, secret);
            Encoded(w, opts, EncName(AbbreviateHome(w, path), e)[4..]) == Recovered(secret)
  {
    hide Encode, Decode, HexEncode, ValidFrom, Split, SplitEncFields, AbbreviateHome, ResolveHome;
    var kv, keyfile := ReadKey(w.files, path).value, AbbreviateHome(w, path);
    var c := CbcEncrypt(w.aes, kv.key, kv.iv, Padded(secret));
    assert Encode(w.aes, kv, secret) == HexEncode(c) by { EncodeIsHex(w.aes, kv, secret); }
    SplitEncName(keyfile, c);
    SplitOne(keyfile, '|');
    DecodeEncode(w.aes, kv, secret);
    assert PREFIX <= PREFIX + HexEncode(c);
    assert FirstDecoded(w, [keyfile], 1, PREFIX + HexEncode(c)) == "";
  }

  lemma EncodeIsHex(aes: Aes, kv: KeyValues, secret: Bytes)
    ensures Encode(aes, kv, secret) == HexEncode(CbcEncrypt(aes, kv.key, kv.iv, Padded(secret)))
  {
  }

  /** What the expandable form of a secret looks like. */
  lemma SettingName(w: World, path: string, secret: Bytes) returns (n: string)
    requires ReadKey(w.files, path).Ok? && Balanced(AbbreviateHome(w, path))
    ensures n == EncName(AbbreviateHome(w, path), Encode(w.aes, ReadKey(w.files, path).value, secret))
    ensures EncodeString(w, path, secret, true) == Ok("${" + n + "}")
    ensures Balanced(n) && n != "" && n[..4] == "enc:"
  {
    hide Encode, HexEncode, Closed, AbbreviateHome, ReadKey, CbcEncrypt;
    var kv, keyfile := ReadKey(w.files, path).value, AbbreviateHome(w, path);
    var e := Encode(w.aes, kv, secret);
    EncodeIsHex(w.aes, kv, secret);
    EncNameBalanced(keyfile, CbcEncrypt(w.aes, kv.key, kv.iv, Padded(secret)));
    n := EncName(keyfile, e);
    assert "${enc:" + keyfile + ":" + PREFIX + e + "}" == "${" + n + "}";
  }

  /** A secret printed as an expandable setting comes back when the setting is expanded. The path of
      the key file may hold anything but `|` and unbalanced braces, and must survive abbreviation.
      Trimming and the default value apply to the secret as to any other value. */
  lemma SecretRoundTrip(w: World, opts: Options, path: string, secret: Bytes)
    requires w.aes.Bijective() && ReadKey(w.files, path).Ok?
    requires opts.useKeyFile == "" && !opts.noExpand && !opts.noDecode
    requires Balanced(AbbreviateHome(w, path)) && '|' !in AbbreviateHome(w, path)
    requires ResolveHome(w, AbbreviateHome(w, path)) == path
    ensures var out := EncodeString(w, path, secret, true);
            out.Ok? && ExpandWith(w, opts, out.value) == Finish(opts, Recovered(secret))
  {
    hide Encode, EncodeString, Closed, Encoded, AbbreviateHome, ResolveHome, ReadKey, Expand, Finish;
    var n := SettingName(w, path, secret);
    OneReference(n, Mapping(w, opts));
    EncodedDecodes(w, opts, path, secret);
  }

  /** The same inside a longer text: what stands before and after is expanded as it would be alone. */
  lemma SecretInContext(w: World, opts: Options, path: string, secret: Bytes, before: string, behind: string)
    requires w.aes.Bijective() && ReadKey(w.files, path).Ok?
    requires opts.useKeyFile == "" && !opts.noDecode
    requires Balanced(AbbreviateHome(w, path)) && '|' !in AbbreviateHome(w, path)
    requires ResolveHome(w, AbbreviateHome(w, path)) == path
    requires AllClosed(before)
    ensures var m := Mapping(w, opts);
            Expand(before + (EncodeString(w, path, secret, true).value + behind), m)
            == Expand(before, m) + (Recovered(secret) + Expand(behind, m))
  {
    hide Encode, EncodeString, Closed, Encoded, AbbreviateHome, ResolveHome, ReadKey, Expand, Tokens, AllClosed;
    var n := SettingName(w, path, secret);
    var out, m := "${" + n + "}", Mapping(w, opts);
    OneReference(n, m);
    EncodedDecodes(w, opts, path, secret);
    assert out[0] == '$' && out[|out| - 1] == '}' && n[..4] == "enc:";
    OneReferenceCloses(n);
    ExpandConcat(out, behind, m);
    ExpandConcat(before, out + behind, m);
  }

  lemma OneReferenceCloses(n: string)
    requires n != "" && Balanced(n)
    ensures AllClosed("${" + n + "}")
  {
    var s := "${" + n + "}";
    assert s[2..|s| - 1] == n;
    ClosingComplete(s, 2, |s| - 1, START);
  }

  /** A secret may name several key files: it comes back from the one that encoded it, when none before that one
      decodes it; a file that is missing or does not parse is passed over. */
  lemma SecretAmongKeys(w: World, opts: Options, paths: seq<string>, n: nat, secret: Bytes)
    requires w.aes.Bijective() && ValidFrom(secret, 0)
    requires opts.useKeyFile == "" && !opts.noExpand && !opts.noDecode
    requires n < |paths| && Without(paths, '|') && Balanced(Joined(paths, '|'))
    requires ReadKey(w.files, ResolveHome(w, paths[n])).Ok?
    requires var e := Encode(w.aes, ReadKey(w.files, ResolveHome(w, paths[n])).value, secret);
             forall k | 0 <= k < n :: DecodeString(w, ResolveHome(w, paths[k]), PREFIX + e).Err?
    ensures var e := Encode(w.aes, ReadKey(w.files, ResolveHome(w, paths[n])).value, secret);
            var r := ExpandWith(w, opts, "${" + EncName(Joined(paths, '|'), e) + "}");
            r == Finish(opts, secret) && (secret != "" && !opts.trimSpace ==> r == secret)
  {
    hide Encode, HexEncode, Closed, Encoded, ResolveHome, ReadKey, Expand, Joined, Without, ValidFrom, CbcEncrypt, Decode;
    var kv, keyfiles := ReadKey(w.files, ResolveHome(w, paths[n])).value, Joined(paths, '|');
    var e := Encode(w.aes, kv, secret);
    var c := CbcEncrypt(w.aes, kv.key, kv.iv, Padded(secret));
    EncodeIsHex(w.aes, kv, secret);
    EncNameBalanced(keyfiles, c);
    var name := EncName(keyfiles, e);
    assert name[..4] == "enc:";
    OneReference(name, Mapping(w, opts));
    DecodeEncode(w.aes, kv, secret);
    assert DecodesFirst(w, paths, n, PREFIX + e, secret);
    NoColon(c);
    assert PREFIX <= PREFIX + e;
    EncodedIff(w, opts, keyfiles, PREFIX + e, paths, secret);
    DropEnc(keyfiles, e);
    SpellPrefix(e);
  }

  lemma NoColon(c: Bytes)
    ensures ':' !in PREFIX + HexEncode(c)
  {
    hide HexEncode;
    HexIsPlain(c);
  }

  // ----- the options of an expansion -----

  /** Without expansion the value is the first of the input, the initial value and the default that is not empty. */
  lemma NotExpanded(w: World, opts: Options, input: string)
    requires opts.noExpand
    ensures var r := ExpandWith(w, opts, input);
            && (r == "" <==> input == "" && opts.initialValue == "" && opts.defaultValue == "")
            && (input != "" ==> r == input)
            && (input == "" && opts.initialValue != "" ==> r == opts.initialValue)
            && (input == "" && opts.initialValue == "" ==> r == opts.defaultValue)
  {
  }

  /** An input that expands to `value`: the result is that, trimmed if this is asked for, and the default value when
      nothing is left. */
  ghost predicate Shows(opts: Options, value: string, r: string) {
    var v := if opts.trimSpace then TrimSpace(value) else value;
    if v != "" then r == v else r == opts.defaultValue
  }

  /** A plain input stands for itself, an empty one for the initial value. */
  lemma PlainOptions(w: World, opts: Options, input: string)
    requires !opts.noExpand && !HasOpener(input) && !HasOpener(opts.initialValue)
    ensures Shows(opts, if input != "" then input else opts.initialValue, ExpandWith(w, opts, input))
  {
    hide Expand, TrimSpace, HasOpener;
    ExpandPlain(if input != "" then input else opts.initialValue, Mapping(w, opts));
  }

  /** A single reference stands for what its name means; an encoded one for what it decodes to, or for itself when
      decoding is turned off. As the initial value of an empty input it stands for the same. */
  lemma ReferenceOptions(w: World, opts: Options, n: string)
    requires !opts.noExpand && n != "" && Balanced(n)
    ensures var r := ExpandWith(w, opts, "${" + n + "}");
            && (!("enc:" <= n) ==> Shows(opts, w.raw(n), r))
            && ("enc:" <= n && opts.noDecode ==> Shows(opts, "${" + n + "}", r))
            && ("enc:" <= n && !opts.noDecode ==> Shows(opts, Encoded(w, opts, n[4..]), r))
            && (opts.initialValue == "${" + n + "}" ==> ExpandWith(w, opts, "") == r)
  {
    hide Expand, TrimSpace, Balanced, Encoded;
    OneReference(n, Mapping(w, opts));
    assert ("${" + n + "}")[0] == '$';
  }

  // ----- creating and rolling key files -----

  /** The key files of one host. `checksum` is the CRC of the text of a key file, `backupPath` the
      name of the backup of a file. */
  class KeyFileStore {
    var files: map<string, string>
    const checksum: string -> nat
    const backupPath: (string, string) -> string

    constructor (checksum: string -> nat, backupPath: (string, string) -> string)
      ensures files == map[] && this.checksum == checksum && this.backupPath == backupPath
    {
      files := map[];
      this.checksum, this.backupPath := checksum, backupPath;
    }

    /** `random` stands for the random key a new file gets. A file that exists but does not parse is
        left alone, and no error is reported. */
    method ReadOrCreate(path: string, random: KeyValues) returns (crc: nat, created: bool)
      modifies this
      ensures created <==> path !in old(files)
      ensures files == if created then old(files)[path := KeyString(random)] else old(files)
      ensures created ==> ReadKey(files, path) == Ok(random)
      ensures ReadKey(files, path).Ok? ==> crc == checksum(KeyString(ReadKey(files, path).value))
      ensures ReadKey(files, path).Err? ==> crc == 0
    {
      var kv := ReadKey(files, path);
      if kv.Ok? {
        return checksum(KeyString(kv.value)), false;
      }
      if path !in files {
        files := files[path := KeyString(random)];
        ParseKeyString(random);
        return checksum(KeyString(random)), true;
      }
      return 0, false;
    }

    /** Rolling a key file. With a backup name the old key moves aside and a random one takes its
        place; without one, an existing key stays as it is. */
    method CreateWithBackup(path: string, backup: string, random: KeyValues) returns (r: Result<nat>)
      modifies this
      ensures r.Err? <==> path in old(files) && ReadKey(old(files), path).Err?
      ensures r.Err? ==> files == old(files)
      ensures path !in old(files) ==> files == old(files)[path := KeyString(random)]
      ensures r.Ok? && path in old(files) && backup == "" ==> files == old(files)
      ensures r.Ok? && path in old(files) && backup != "" && backupPath(path, backup) != path ==>
                files == old(files)[backupPath(path, backup) := old(files)[path]][path := KeyString(random)]
      ensures r.Ok? && path in old(files) && backupPath(path, backup) == path ==> files == old(files)
    {
      var kv := ReadKey(files, path);
      if kv.Err? {
        if path !in files {
          var crc, created := ReadOrCreate(path, random);
          return Ok(crc);
        }
        return Err(kv.error);
      }
      if backup != "" && backupPath(path, backup) != path {
        files := (files - {path})[backupPath(path, backup) := files[path]];
      }
      var crc, created := ReadOrCreate(path, random);
      return Ok(crc);
    }
  }

  /** After a key file has been rolled, the new path decodes what the random key encodes and the
      backup still decodes everything that was encoded with the old key. */
  lemma RollKeepsSecrets(w: World, path: string, backup: string, random: KeyValues, secret: Bytes)
    requires w.aes.Bijective() && ReadKey(w.files, path).Ok? && backup != path
    ensures var rolled := w.(files := w.files[backup := w.files[path]][path := KeyString(random)]);
            var input := EncodeString(w, path, secret, false).value;
            && DecodeString(rolled, backup, input) == DecodeString(w, path, input)
            && (ValidFrom(secret, 0) ==> DecodeString(rolled, backup, input) == Ok(secret))
            && (ValidFrom(secret, 0) ==> DecodeString(rolled, path, PREFIX + Encode(w.aes, random, secret)) == Ok(secret))
  {
    hide Encode, Decode, ValidFrom, Parse, KeyString;
    ParseKeyString(random);
    DecodeEncode(w.aes, ReadKey(w.files, path).value, secret);
    DecodeEncode(w.aes, random, secret);
  }
}
