/**
 * The PHP string functions the bundle uses, on strings as sequences of
 * characters: ASCII case mapping (`strtolower`, `strtoupper`), prefix tests
 * (`substr($s, 0, n) === $p`, `stripos($s, $p) === 0`), `str_replace` and
 * `basename`.
 */
module Text {

  predicate IsUpperAscii(c: char)
  {
    'A' <= c <= 'Z'
  }

  predicate IsLowerHex(c: char)
  {
    '0' <= c <= '9' || 'a' <= c <= 'f'
  }

  function LowerChar(c: char): char
  {
    if IsUpperAscii(c) then (c as int + 32) as char else c
  }

  function UpperChar(c: char): char
  {
    if 'a' <= c <= 'z' then (c as int - 32) as char else c
  }

  /** `strtolower`: maps A-Z to a-z and leaves every other character alone. */
  function Lower(s: string): (r: string)
    ensures |r| == |s|
    ensures forall i | 0 <= i < |s| :: r[i] == LowerChar(s[i])
  {
    seq(|s|, i requires 0 <= i < |s| => LowerChar(s[i]))
  }

  /** `strtoupper`: maps a-z to A-Z and leaves every other character alone. */
  function Upper(s: string): (r: string)
    ensures |r| == |s|
    ensures forall i | 0 <= i < |s| :: r[i] == UpperChar(s[i])
  {
    seq(|s|, i requires 0 <= i < |s| => UpperChar(s[i]))
  }

  predicate StartsWith(s: string, prefix: string)
  {
    prefix <= s
  }

  predicate EndsWith(s: string, suffix: string)
  {
    |suffix| <= |s| && s[|s| - |suffix|..] == suffix
  }

  /** `stripos($s, $prefix) === 0`: `s` begins with `prefix`, ignoring ASCII case. */
  predicate StartsWithIgnoreCase(s: string, prefix: string)
  {
    |prefix| <= |s| && Lower(s[..|prefix|]) == Lower(prefix)
  }

  /** `needle` occurs somewhere in `s`. */
  predicate Contains(s: string, needle: string)
  {
    exists i | 0 <= i <= |s| :: needle <= s[i..]
  }

  /**
   * `str_replace($needle, $repl, $s)`: every occurrence of `needle`, found
   * left to right without overlap, is replaced by `repl`; an empty needle
   * leaves the subject unchanged.
   */
  function ReplaceAll(s: string, needle: string, repl: string): string
    decreases |s|
  {
    if |needle| == 0 || |s| == 0 then s
    else if needle <= s then repl + ReplaceAll(s[|needle|..], needle, repl)
    else [s[0]] + ReplaceAll(s[1..], needle, repl)
  }

  /** Replacing a needle that does not occur changes nothing. */
  lemma {:induction false} ReplaceAllAbsent(s: string, needle: string, repl: string)
    requires !Contains(s, needle)
    ensures ReplaceAll(s, needle, repl) == s
    decreases |s|
  {
    if |needle| > 0 && |s| > 0 {
      assert !(needle <= s[0..]);
      assert s[0..] == s;
      forall i | 0 <= i <= |s[1..]|
        ensures !(needle <= s[1..][i..])
      {
        assert s[1..][i..] == s[i + 1..];
      }
      ReplaceAllAbsent(s[1..], needle, repl);
    }
  }

  /** A one-character needle is replaced piecewise: the parts of a concatenation are replaced separately. */
  lemma {:induction false} ReplaceCharAppend(a: string, b: string, c: char, repl: string)
    ensures ReplaceAll(a + b, [c], repl) == ReplaceAll(a, [c], repl) + ReplaceAll(b, [c], repl)
    decreases |a|
  {
    if |a| == 0 {
      assert a + b == b;
    } else {
      assert (a + b)[1..] == a[1..] + b;
      assert ([c] <= a + b) == ([c] <= a);
      ReplaceCharAppend(a[1..], b, c, repl);
    }
  }

  /** A string without the character is left as it is. */
  lemma {:induction false} ReplaceCharAbsent(s: string, c: char, repl: string)
    requires c !in s
    ensures ReplaceAll(s, [c], repl) == s
    decreases |s|
  {
    if |s| > 0 {
      assert s[0] != c;
      ReplaceCharAbsent(s[1..], c, repl);
    }
  }

  /** `Lower` works character by character, so it distributes over concatenation. */
  lemma LowerAppend(a: string, b: string)
    ensures Lower(a + b) == Lower(a) + Lower(b)
  {
    assert forall i | 0 <= i < |a + b| :: Lower(a + b)[i] == (Lower(a) + Lower(b))[i];
  }

  /** Removing a needle never lengthens the subject. */
  lemma {:induction false} RemoveAllShrinks(s: string, needle: string)
    ensures |ReplaceAll(s, needle, "")| <= |s|
    decreases |s|
  {
    if |needle| > 0 && |s| > 0 {
      if needle <= s {
        RemoveAllShrinks(s[|needle|..], needle);
      } else {
        RemoveAllShrinks(s[1..], needle);
      }
    }
  }

  /** `rtrim($path, '/')`, the first step of `basename`. */
  function TrimTrailingSlashes(s: string): (r: string)
    ensures r <= s
    ensures |r| == 0 || r[|r| - 1] != '/'
  {
    if |s| > 0 && s[|s| - 1] == '/' then TrimTrailingSlashes(s[..|s| - 1]) else s
  }

  /** The part of `s` after its last '/', or all of `s` when it has none. */
  function AfterLastSlash(s: string): (r: string)
    ensures |r| <= |s| && r == s[|s| - |r|..]
    ensures '/' !in r
  {
    if |s| == 0 || s[|s| - 1] == '/' then ""
    else AfterLastSlash(s[..|s| - 1]) + [s[|s| - 1]]
  }

  /**
   * PHP's `basename($path, $suffix)`: the last path component, with `suffix`
   * removed when the component ends with it and is longer than it.
   */
  function Basename(path: string, suffix: string): (r: string)
    ensures '/' !in r
  {
    var name := AfterLastSlash(TrimTrailingSlashes(path));
    if |suffix| < |name| && EndsWith(name, suffix) then name[..|name| - |suffix|] else name
  }

  lemma {:induction false} AfterLastSlashOfJoin(dir: string, name: string)
    requires '/' !in name
    ensures AfterLastSlash(dir + "/" + name) == name
    decreases |name|
  {
    var s := dir + "/" + name;
    if |name| == 0 {
      assert s[|s| - 1] == '/';
    } else {
      assert s[..|s| - 1] == dir + "/" + name[..|name| - 1];
      AfterLastSlashOfJoin(dir, name[..|name| - 1]);
      assert name == name[..|name| - 1] + [name[|name| - 1]];
    }
  }

  /** The basename of `dir/name` is `name`, less the suffix when it carries one. */
  lemma BasenameOfJoin(dir: string, name: string, suffix: string)
    requires '/' !in name && |name| > 0
    ensures Basename(dir + "/" + name, suffix)
         == if |suffix| < |name| && EndsWith(name, suffix) then name[..|name| - |suffix|] else name
  {
    var s := dir + "/" + name;
    assert s[|s| - 1] == name[|name| - 1];
    assert TrimTrailingSlashes(s) == s;
    AfterLastSlashOfJoin(dir, name);
  }
}
