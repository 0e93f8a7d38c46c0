/** The ways to write hexadecimal digits that the services read alike. */
module Spellings {
  import opened Text

  predicate IsHex(s: string) {
    s != "" && AllLowerHex(ToLower(s))
  }

  lemma HexHasNoSpace(s: string)
    requires IsHex(s)
    ensures TrimSpace(s) == s && !IsSpace(s[0]) && !IsSpace(s[|s| - 1]) && !("0x" <= ToLower(s))
  {
    var low := ToLower(s);
    assert low[0] in low && low[|s| - 1] in low;
    HexHasNoPrefix(low);
  }

  lemma HexHasNoPrefix(s: string)
    requires AllLowerHex(s)
    ensures !("0x" <= s)
  {
    if |s| >= 2 {
      assert s[1] in s;
    }
  }

  lemma PrefixOfTwo(s: string, c: char, d: char)
    ensures [c, d] <= s <==> |s| >= 2 && s[0] == c && s[1] == d
  {
  }

  /** A spelling of a hexadecimal ID: any case, with "0x", "0X" or nothing in front, and space around it. */
  ghost predicate Spells(s: string, core: string) {
    exists left, prefix, body, right :: SpelledAs(s, core, left, prefix, body, right)
  }

  predicate SpelledAs(s: string, core: string, left: string, prefix: string, body: string, right: string) {
    && AllSpace(left) && AllSpace(right) && (prefix == "" || prefix == "0x" || prefix == "0X")
    && IsHex(body) && ToLower(body) == core && s == left + prefix + body + right
  }

  lemma SpelledIsBare(s: string, core: string, left: string, prefix: string, body: string, right: string)
    requires SpelledAs(s, core, left, prefix, body, right)
    ensures BareForm(s) == core
  {
    var t := prefix + body;
    HexHasNoSpace(body);
    assert t[|t| - 1] == body[|body| - 1] && !IsSpace(t[0]);
    assert s == left + t + right;
    TrimPadded(left, t, right);
    assert ToLower(t) == ToLower(prefix) + core;
    if prefix == "" {
      assert ToLower(t) == core;
    } else {
      assert ToLower(t) == "0x" + core && ("0x" + core)[2..] == core;
    }
  }

  lemma BareIsSpelled(s: string, core: string)
    requires BareForm(s) == core && IsHex(core) && ToLower(core) == core
    ensures Spells(s, core)
  {
    var left, right := TrimSplits(s);
    var t := TrimSpace(s);
    var low := ToLower(t);
    if "0x" <= low {
      PrefixOfTwo(low, '0', 'x');
      PrefixOfTwo(t, '0', 'x');
      PrefixOfTwo(t, '0', 'X');
      var prefix, body := t[..2], t[2..];
      assert ToLower(body) == low[2..] == core;
      assert prefix == "0x" || prefix == "0X";
      assert s == left + prefix + body + right;
      assert SpelledAs(s, core, left, prefix, body, right);
    } else {
      assert left + "" + t + right == left + t + right;
      assert SpelledAs(s, core, left, "", t, right);
    }
  }

  /** What is read as these lower-case digits are exactly their spellings. */
  lemma BareExactlyWhenSpelled(s: string, core: string)
    ensures BareForm(s) == core && core != "" && AllLowerHex(core) <==> Spells(s, core)
  {
    if Spells(s, core) {
      var left, prefix, body, right :| SpelledAs(s, core, left, prefix, body, right);
      SpelledIsBare(s, core, left, prefix, body, right);
    }
    if BareForm(s) == core && core != "" && AllLowerHex(core) {
      LowerHexIsLower(core);
      BareIsSpelled(s, core);
    }
  }

  lemma SpelledIsNotBlank(s: string, core: string)
    requires Spells(s, core)
    ensures s != ""
  {
    var left, prefix, body, right :| SpelledAs(s, core, left, prefix, body, right);
    assert |s| >= |body| > 0;
  }

  /** The digits of a digest in any case, bare or after "0x". */
  predicate SpellsDigest(s: string, digest: seq<Byte>) {
    ToLower(s) == Hex(digest) || ("0x" <= s && ToLower(s[2..]) == Hex(digest))
  }

  lemma SpelledDigestIsRead(s: string, digest: seq<Byte>)
    requires SpellsDigest(s, digest)
    ensures SeederForm(s) == Hex(digest)
    ensures digest != [] ==> BareForm(s) == Hex(digest)
  {
    var hex := Hex(digest);
    LowerHexIsLower(hex);
    if "0x" <= s && ToLower(s[2..]) == hex {
      if digest != [] {
        assert s == "" + "0x" + s[2..] + "";
        SpelledIsBare(s, hex, "", "0x", s[2..], "");
      }
    } else {
      HexHasNoPrefix(hex);
      PrefixOfTwo(s, '0', 'x');
      PrefixOfTwo(ToLower(s), '0', 'x');
      if digest != [] {
        assert s == "" + "" + s + "";
        SpelledIsBare(s, hex, "", "", s, "");
      }
    }
  }
}
