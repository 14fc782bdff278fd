/**
 * SelfTestController: runs the fixed list of environment self tests and
 * reports each result under a slug derived from the test's class name, and
 * reports the configuration the tests detected.
 */
module SelfTestController {
  import opened Wrappers
  import opened Php
  import Text
  import Dict

  const Namespace: string := "Tenside\\Core\\SelfTest\\"

  /** A self-test class: its group namespace and the camel-case words after 'SelfTest' in its name. */
  datatype TestClass = TestClass(group: string, words: seq<string>)

  /** The fully qualified name of a self-test class. */
  function ClassName(t: TestClass): string
  {
    Namespace + t.group + "\\" + ("SelfTest" + Concat(t.words))
  }

  /** The registered tests, in order. */
  const Registered: seq<TestClass> := [
    TestClass("Generic", ["Called", "Via", "Https"]),
    TestClass("Generic", ["File", "Owner", "Matches"]),
    TestClass("Php", ["Allow", "Url", "Fopen", "Enabled"]),
    TestClass("Php", ["Suhosin"]),
    TestClass("Cli", ["Can", "Spawn", "Processes"]),
    TestClass("Cli", ["Cli", "Runtime"]),
    TestClass("Cli", ["Cli", "Arguments"])]

  /** `prepareTests`: the test classes, in the order they are registered and performed. */
  function PrepareTests(): (tests: seq<string>)
    ensures |tests| == 7
    ensures forall i | 0 <= i < 7 :: Text.StartsWith(tests[i], Namespace)
  {
    seq(7, i requires 0 <= i < 7 => ClassName(Registered[i]))
  }

  /** `preg_replace('#([A-Z])#', '-$1', $s)`: a dash before every capital letter. */
  function Dashed(s: string): (r: string)
    ensures |r| >= |s|
  {
    if |s| == 0 then ""
    else (if Text.IsUpperAscii(s[0]) then "-" + [s[0]] else [s[0]]) + Dashed(s[1..])
  }

  /** `substr($s, 1)`: everything after the first character. */
  function DropFirst(s: string): string
  {
    if |s| == 0 then "" else s[1..]
  }

  /** The class name less a leading 'SelfTest'. */
  function StripSelfTest(name: string): (r: string)
    ensures Text.StartsWith(name, "SelfTest") ==> name == "SelfTest" + r
    ensures !Text.StartsWith(name, "SelfTest") ==> r == name
  {
    if Text.StartsWith(name, "SelfTest") then name[8..] else name
  }

  /** The last segment of a namespaced class name (`basename` after turning backslashes into slashes). */
  function ShortName(className: string): (r: string)
    ensures '/' !in r
  {
    Text.Basename(Text.ReplaceAll(className, "\\", "/"), "")
  }

  /** The slug of a short class name. */
  function SlugOfName(name: string): (r: string)
    ensures forall i | 0 <= i < |r| :: !Text.IsUpperAscii(r[i])
  {
    Text.Lower(DropFirst(Dashed(StripSelfTest(name))))
  }

  /** `testClassToSlug`. */
  function Slug(className: string): (r: string)
    ensures forall i | 0 <= i < |r| :: !Text.IsUpperAscii(r[i])
  {
    SlugOfName(ShortName(className))
  }

  /** A camel-case word: a capital letter followed by no other capital. */
  predicate IsWord(w: string)
  {
    |w| > 0 && Text.IsUpperAscii(w[0]) && NoCapitalsFrom(w, 1)
  }

  /** No character of `s` from position `i` on is a capital letter. */
  predicate NoCapitalsFrom(s: string, i: nat)
    decreases |s| - i
  {
    i >= |s| || (!Text.IsUpperAscii(s[i]) && NoCapitalsFrom(s, i + 1))
  }

  /** Camel-case words free of path and namespace separators. */
  predicate PlainWords(words: seq<string>)
  {
    |words| > 0 && PlainFrom(words, 0)
  }

  /** The words from position `i` on are camel-case and free of separators. */
  predicate PlainFrom(words: seq<string>, i: nat)
    decreases |words| - i
  {
    i >= |words| || (IsWord(words[i]) && '\\' !in words[i] && '/' !in words[i] && PlainFrom(words, i + 1))
  }

  function Concat(words: seq<string>): string
  {
    if |words| == 0 then "" else words[0] + Concat(words[1..])
  }

  /** The words joined by dashes. */
  function DashJoin(words: seq<string>): string
  {
    if |words| == 0 then ""
    else if |words| == 1 then words[0]
    else words[0] + "-" + DashJoin(words[1..])
  }

  lemma {:induction false} DashedAppend(a: string, b: string)
    ensures Dashed(a + b) == Dashed(a) + Dashed(b)
  {
    if |a| == 0 {
      assert a + b == b;
    } else {
      assert (a + b)[1..] == a[1..] + b;
      DashedAppend(a[1..], b);
    }
  }

  lemma {:induction false} DashedLower(s: string, i: nat)
    requires i <= |s| && NoCapitalsFrom(s, i)
    ensures Dashed(s[i..]) == s[i..]
    decreases |s| - i
  {
    if i < |s| {
      assert s[i..][1..] == s[i + 1..];
      DashedLower(s, i + 1);
      assert s[i..] == [s[i]] + s[i + 1..];
    }
  }

  lemma DashedWord(w: string)
    requires IsWord(w)
    ensures Dashed(w) == "-" + w
  {
    assert ("-" + [w[0]]) + w[1..] == "-" + w;
    DashedLower(w, 1);
    assert Dashed(w) == ("-" + [w[0]]) + Dashed(w[1..]);
  }

  lemma {:induction false} DashedWords(words: seq<string>, i: nat)
    requires i < |words| && PlainFrom(words, i)
    ensures Dashed(Concat(words[i..])) == "-" + DashJoin(words[i..])
    decreases |words| - i
  {
    var rest := words[i + 1..];
    assert words[i..][1..] == rest;
    assert Concat(words[i..]) == words[i] + Concat(rest);
    DashedWord(words[i]);
    DashedAppend(words[i], Concat(rest));
    if |rest| > 0 {
      assert DashJoin(words[i..]) == words[i] + "-" + DashJoin(rest);
      DashedWords(words, i + 1);
    } else {
      assert Dashed(Concat(rest)) == "";
    }
  }

  /** Turning backslashes into slashes leaves a name free of backslashes as it is. */
  lemma SlashedQualified(ns: string, name: string)
    requires '\\' !in name
    ensures Text.ReplaceAll(ns + "\\" + name, "\\", "/") == Text.ReplaceAll(ns, "\\", "/") + "/" + name
  {
    var bs := "\\";
    assert ns + bs + name == ns + (bs + name);
    SlashOfBackslash();
    Text.ReplaceCharAppend(ns, bs + name, '\\', "/");
    Text.ReplaceCharAppend(bs, name, '\\', "/");
    Text.ReplaceCharAbsent(name, '\\', "/");
  }

  lemma SlashOfBackslash()
    ensures Text.ReplaceAll("\\", "\\", "/") == "/"
  {
    assert "\\"[1..] == "";
  }

  /** The short name of a class is the part after its last namespace separator. */
  lemma ShortNameOfQualified(ns: string, name: string)
    requires |name| > 0 && '\\' !in name && '/' !in name
    ensures ShortName(ns + "\\" + name) == name
  {
    SlashedQualified(ns, name);
    Text.BasenameOfJoin(Text.ReplaceAll(ns, "\\", "/"), name, "");
  }

  lemma StripLeadingSelfTest(tail: string)
    ensures StripSelfTest("SelfTest" + tail) == tail
  {
    var name := "SelfTest" + tail;
    assert name[..8] == "SelfTest";
    assert name[8..] == tail;
  }

  lemma DropLeadingDash(x: string)
    ensures DropFirst("-" + x) == x
  {
    assert ("-" + x)[1..] == x;
  }

  /**
   * 'SelfTest' followed by camel-case words gets the lower-cased words
   * joined by dashes as its slug.
   */
  lemma SlugOfSelfTest(words: seq<string>)
    requires PlainWords(words)
    ensures SlugOfName("SelfTest" + Concat(words)) == Text.Lower(DashJoin(words))
  {
    assert words[0..] == words;
    StripLeadingSelfTest(Concat(words));
    DashedWords(words, 0);
    DropLeadingDash(DashJoin(words));
  }

  /** The prefix 'SelfTest' holds no path separator. */
  lemma NameAvoids(tail: string, c: char)
    requires c !in tail && (c == '\\' || c == '/')
    ensures c !in "SelfTest" + tail
  {
    var name := "SelfTest" + tail;
    forall i | 0 <= i < |name|
      ensures name[i] != c
    {
      if i >= 8 {
        assert name[i] == tail[i - 8];
      }
    }
  }

  lemma {:induction false} ConcatAvoids(words: seq<string>, i: nat, c: char)
    requires i <= |words| && PlainFrom(words, i) && (c == '\\' || c == '/')
    ensures c !in Concat(words[i..])
    decreases |words| - i
  {
    if i < |words| {
      assert words[i..][1..] == words[i + 1..];
      ConcatAvoids(words, i + 1, c);
    }
  }

  /** A registered test's slug, from its namespace, its words and the expected slug. */
  lemma SlugCase(ns: string, words: seq<string>, className: string, slug: string)
    requires PlainWords(words)
    requires className == ns + "\\" + ("SelfTest" + Concat(words))
    requires Text.Lower(DashJoin(words)) == slug
    ensures Slug(className) == slug
  {
    assert words[0..] == words;
    ConcatAvoids(words, 0, '\\');
    ConcatAvoids(words, 0, '/');
    NameAvoids(Concat(words), '\\');
    NameAvoids(Concat(words), '/');
    ShortNameOfQualified(ns, "SelfTest" + Concat(words));
    SlugOfSelfTest(words);
  }

  lemma JoinedWords0()
    ensures DashJoin(Registered[0].words) == "Called-Via-Https"
  {
  }

  lemma LoweredWords0()
    ensures Text.Lower("Called-Via-Https") == "called-via-https"
  {
  }

  lemma PlainWords0()
    ensures PlainWords(Registered[0].words)
  {
  }

  lemma SlugOfTest0()
    ensures Slug(PrepareTests()[0]) == "called-via-https"
  {
    JoinedWords0();
    LoweredWords0();
    PlainWords0();
    SlugCase(Namespace + Registered[0].group, Registered[0].words, PrepareTests()[0], "called-via-https");
  }

  lemma JoinedWords1()
    ensures DashJoin(Registered[1].words) == "File-Owner-Matches"
  {
  }

  lemma LoweredWords1()
    ensures Text.Lower("File-Owner-Matches") == "file-owner-matches"
  {
  }

  lemma PlainWords1()
    ensures PlainWords(Registered[1].words)
  {
  }

  lemma SlugOfTest1()
    ensures Slug(PrepareTests()[1]) == "file-owner-matches"
  {
    JoinedWords1();
    LoweredWords1();
    PlainWords1();
    SlugCase(Namespace + Registered[1].group, Registered[1].words, PrepareTests()[1], "file-owner-matches");
  }

  lemma JoinedWords2()
    ensures DashJoin(Registered[2].words) == "Allow-Url-Fopen-Enabled"
  {
    JoinedFopenEnabled();
    JoinedUrlFopenEnabled();
    var w := Registered[2].words;
    assert w[1..] == ["Url", "Fopen", "Enabled"];
    assert "Allow" + "-" + "Url-Fopen-Enabled" == "Allow-Url-Fopen-Enabled";
  }

  lemma JoinedFopenEnabled()
    ensures DashJoin(["Fopen", "Enabled"]) == "Fopen-Enabled"
  {
  }

  lemma JoinedUrlFopenEnabled()
    ensures DashJoin(["Url", "Fopen", "Enabled"]) == "Url-Fopen-Enabled"
  {
    JoinedFopenEnabled();
    assert ["Url", "Fopen", "Enabled"][1..] == ["Fopen", "Enabled"];
    assert "Url" + "-" + "Fopen-Enabled" == "Url-Fopen-Enabled";
  }

  lemma LoweredWords2()
    ensures Text.Lower("Allow-Url-Fopen-Enabled") == "allow-url-fopen-enabled"
  {
  }

  lemma PlainWords2()
    ensures PlainWords(Registered[2].words)
  {
  }

  lemma SlugOfTest2()
    ensures Slug(PrepareTests()[2]) == "allow-url-fopen-enabled"
  {
    JoinedWords2();
    LoweredWords2();
    PlainWords2();
    SlugCase(Namespace + Registered[2].group, Registered[2].words, PrepareTests()[2], "allow-url-fopen-enabled");
  }

  lemma JoinedWords3()
    ensures DashJoin(Registered[3].words) == "Suhosin"
  {
  }

  lemma LoweredWords3()
    ensures Text.Lower("Suhosin") == "suhosin"
  {
  }

  lemma PlainWords3()
    ensures PlainWords(Registered[3].words)
  {
  }

  lemma SlugOfTest3()
    ensures Slug(PrepareTests()[3]) == "suhosin"
  {
    JoinedWords3();
    LoweredWords3();
    PlainWords3();
    SlugCase(Namespace + Registered[3].group, Registered[3].words, PrepareTests()[3], "suhosin");
  }

  lemma JoinedWords4()
    ensures DashJoin(Registered[4].words) == "Can-Spawn-Processes"
  {
    JoinedSpawnProcesses();
    var w := Registered[4].words;
    assert w[1..] == ["Spawn", "Processes"];
    assert "Can" + "-" + "Spawn-Processes" == "Can-Spawn-Processes";
  }

  lemma JoinedSpawnProcesses()
    ensures DashJoin(["Spawn", "Processes"]) == "Spawn-Processes"
  {
  }

  lemma LoweredWords4()
    ensures Text.Lower("Can-Spawn-Processes") == "can-spawn-processes"
  {
  }

  lemma PlainWords4()
    ensures PlainWords(Registered[4].words)
  {
  }

  lemma SlugOfTest4()
    ensures Slug(PrepareTests()[4]) == "can-spawn-processes"
  {
    JoinedWords4();
    LoweredWords4();
    PlainWords4();
    SlugCase(Namespace + Registered[4].group, Registered[4].words, PrepareTests()[4], "can-spawn-processes");
  }

  lemma JoinedWords5()
    ensures DashJoin(Registered[5].words) == "Cli-Runtime"
  {
  }

  lemma LoweredWords5()
    ensures Text.Lower("Cli-Runtime") == "cli-runtime"
  {
  }

  lemma PlainWords5()
    ensures PlainWords(Registered[5].words)
  {
  }

  lemma SlugOfTest5()
    ensures Slug(PrepareTests()[5]) == "cli-runtime"
  {
    JoinedWords5();
    LoweredWords5();
    PlainWords5();
    SlugCase(Namespace + Registered[5].group, Registered[5].words, PrepareTests()[5], "cli-runtime");
  }

  lemma JoinedWords6()
    ensures DashJoin(Registered[6].words) == "Cli-Arguments"
  {
  }

  lemma LoweredWords6()
    ensures Text.Lower("Cli-Arguments") == "cli-arguments"
  {
  }

  lemma PlainWords6()
    ensures PlainWords(Registered[6].words)
  {
  }

  lemma SlugOfTest6()
    ensures Slug(PrepareTests()[6]) == "cli-arguments"
  {
    JoinedWords6();
    LoweredWords6();
    PlainWords6();
    SlugCase(Namespace + Registered[6].group, Registered[6].words, PrepareTests()[6], "cli-arguments");
  }

  /** `prepareTests` registers seven tests whose slugs are, in order, these. */
  lemma RegisteredTestSlugs()
    ensures Slug(PrepareTests()[0]) == "called-via-https"
    ensures Slug(PrepareTests()[1]) == "file-owner-matches"
    ensures Slug(PrepareTests()[2]) == "allow-url-fopen-enabled"
    ensures Slug(PrepareTests()[3]) == "suhosin"
    ensures Slug(PrepareTests()[4]) == "can-spawn-processes"
    ensures Slug(PrepareTests()[5]) == "cli-runtime"
    ensures Slug(PrepareTests()[6]) == "cli-arguments"
  {
    SlugOfTest0(); SlugOfTest1(); SlugOfTest2(); SlugOfTest3();
    SlugOfTest4(); SlugOfTest5(); SlugOfTest6();
  }

  /** One performed test's outcome as the self-test runner reports it. */
  datatype TestResult = TestResult(testClass: string, state: string, message: string, explain: string)

  /** One entry of the 'results' list. */
  datatype ResultRow = ResultRow(name: string, state: string, message: string, explain: string)

  /** `getAllTestsAction`: one row per performed test, in order, named by the test's slug. */
  function GetAllTestsAction(results: seq<TestResult>): (rows: seq<ResultRow>)
    ensures |rows| == |results|
    ensures forall i | 0 <= i < |results| ::
      rows[i] == ResultRow(Slug(results[i].testClass), results[i].state, results[i].message, results[i].explain)
  {
    seq(|results|, i requires 0 <= i < |results| =>
      ResultRow(Slug(results[i].testClass), results[i].state, results[i].message, results[i].explain))
  }

  /** The configuration the tests detected: interpreter and its arguments, null when not found. */
  datatype AutoConfig = AutoConfig(phpInterpreter: Option<string>, commandLineArguments: Option<string>)

  /** A detected value when it is truthy, none otherwise. */
  function Detected(v: Option<string>): (r: Option<string>)
    ensures r.Some? <==> v.Some? && TruthyString(v.value)
    ensures r.Some? ==> r == v
  {
    if v.Some? && TruthyString(v.value) then v else None
  }

  /** `getAutoConfigAction`: each detected value under its key, only when truthy. */
  function GetAutoConfigAction(config: AutoConfig): (r: Dict.Dict<string, string>)
    ensures Dict.Get(r, "php_cli") == Detected(config.phpInterpreter)
    ensures Dict.Get(r, "php_cli_arguments") == Detected(config.commandLineArguments)
    ensures forall i | 0 <= i < |r| :: r[i].0 == "php_cli" || r[i].0 == "php_cli_arguments"
  {
    var cli: Dict.Dict<string, string> :=
      match Detected(config.phpInterpreter)
      case Some(v) => [("php_cli", v)]
      case None => [];
    var arguments: Dict.Dict<string, string> :=
      match Detected(config.commandLineArguments)
      case Some(v) => [("php_cli_arguments", v)]
      case None => [];
    assert Dict.Keys(cli + arguments) == Dict.Keys(cli) + Dict.Keys(arguments);
    cli + arguments
  }
}
