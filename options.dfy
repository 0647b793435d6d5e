/**
 * The command line of parser.c: the default settings, the switch over the
 * option characters getopt_long returns, the single positional argument,
 * and the output file name derived from the input path.
 */
module Options {
  import opened Wrappers

  /** PATH_MAX of linux/limits.h: the size of the buffer default_output_name writes into. */
  const PathMax: nat := 4096

  /** The output name init_option sets. */
  const AnonymousOutput: string := "_anonymous.asm"

  /** The short-option string parser passes to getopt_long. */
  const ShortOptions: string := "asht"

  /** The long options of parser, with the character each returns. */
  const LongOptions: seq<(string, char)> :=
    [("help", 'h'), ("tree", 't'), ("symtabs", 's'), ("only-tree", 'a'), ("only-semantic", 'w')]

  /** The record parser returns; a NULL path is None. */
  datatype Settings = Settings(
    path: Option<string>,
    output: string,
    showTree: bool,
    onlyTree: bool,
    symtabs: bool,
    semantic: bool)

  /** init_option: no path, the anonymous output, only the semantic flag set. */
  function InitOption(): (o: Settings)
    ensures o.path == None && o.output == AnonymousOutput
    ensures !o.showTree && !o.onlyTree && !o.symtabs && o.semantic
  {
    Settings(None, AnonymousOutput, false, false, false, true)
  }

  // ---------------------------------------------------------------------------
  // default_output_name
  // ---------------------------------------------------------------------------

  /** strrchr: the position of the last `c` in `s`, None when there is none. */
  function LastIndex(s: string, c: char): (r: Option<nat>)
    ensures r.Some? ==> r.value < |s| && s[r.value] == c && forall j :: r.value < j < |s| ==> s[j] != c
    ensures r.None? ==> c !in s
    decreases |s|
  {
    if |s| == 0 then None
    else if s[|s| - 1] == c then Some(|s| - 1)
    else LastIndex(s[..|s| - 1], c)
  }

  /** snprintf into a buffer of PATH_MAX bytes: at most PATH_MAX - 1 characters and the NUL. */
  function Bounded(s: string): (r: string)
    ensures |r| < PathMax && r <= s
    ensures |s| < PathMax ==> r == s
  {
    if |s| < PathMax then s else s[..PathMax - 1]
  }

  /**
   * default_output_name: the text after the last `/`, with everything from
   * the last `.` on replaced by ".asm". The precision `%.*s` receives is the
   * distance from the start of that text to the last `.`; when the `.` lies
   * in the directory part it is negative, which snprintf reads as no
   * precision at all (section 7.21.6.1 of ISO C11), so the whole text is kept.
   */
  function DefaultOutputName(path: string): (r: string)
    requires '\0' !in path
    ensures |r| < PathMax && '/' !in r
    ensures |path| + 4 < PathMax ==> |r| >= 4 && r[|r| - 4..] == ".asm"
  {
    var base := BaseStart(path);
    // The precision of `%.*s`: a negative one keeps the whole file name.
    var end := match LastIndex(path, '.')
      case None => |path|
      case Some(d) => if d - base >= 0 then d else |path|;
    AsmName(path, base, end);
    Bounded(path[base..end] + ".asm")
  }

  /** A slice without `/`, then ".asm", cut to the buffer: no `/`, and the suffix survives when the slice is short enough. */
  lemma AsmName(path: string, lo: nat, hi: nat)
    requires lo <= hi <= |path| && forall j :: lo <= j < hi ==> path[j] != '/'
    ensures var r := Bounded(path[lo..hi] + ".asm"); '/' !in r && (hi - lo + 4 < PathMax ==> |r| >= 4 && r[|r| - 4..] == ".asm")
  {
    var name := path[lo..hi] + ".asm";
    assert '/' !in name by {
      forall k | 0 <= k < |name| ensures name[k] != '/' {
        if k < hi - lo {
          assert name[k] == path[lo + k];
        }
      }
    }
  }

  /** Where the file name starts: just after the last `/`, or at the start. */
  function BaseStart(path: string): (b: nat)
    ensures b <= |path|
    ensures forall j :: b <= j < |path| ==> path[j] != '/'
  {
    match LastIndex(path, '/') case None => 0 case Some(j) => j + 1
  }

  /** After a directory part ending at its last `/`, the file name starts where the directory ends. */
  lemma BaseAfterDir(dir: string, name: string)
    requires dir == [] || dir[|dir| - 1] == '/'
    requires '/' !in name
    ensures BaseStart(dir + name) == |dir|
  {
    LastIndexLeft(dir, name, '/');
    if dir != [] {
      LastIndexRight([], dir, '/', |dir| - 1);
      assert [] + dir == dir;
    }
  }

  /** The last `c` of `a + b` is in `b` when `b` holds one. */
  lemma {:induction false} LastIndexRight(a: string, b: string, c: char, k: nat)
    requires k < |b| && b[k] == c && forall j :: k < j < |b| ==> b[j] != c
    ensures LastIndex(a + b, c) == Some(|a| + k)
    decreases |b|
  {
    var s := a + b;
    assert s[|s| - 1] == b[|b| - 1];
    if k < |b| - 1 {
      assert s[..|s| - 1] == a + b[..|b| - 1];
      LastIndexRight(a, b[..|b| - 1], c, k);
    }
  }

  /** With no `c` in `b`, the last `c` of `a + b` is that of `a`. */
  lemma {:induction false} LastIndexLeft(a: string, b: string, c: char)
    requires c !in b
    ensures LastIndex(a + b, c) == LastIndex(a, c)
    decreases |b|
  {
    var s := a + b;
    if |b| == 0 {
      assert s == a;
    } else {
      assert s[|s| - 1] == b[|b| - 1];
      assert b[|b| - 1] in b;
      assert s[..|s| - 1] == a + b[..|b| - 1];
      LastIndexLeft(a, b[..|b| - 1], c);
    }
  }

  /**
   * A path made of a directory part ending at its last `/` (or empty), a
   * stem without `/`, a `.` and an extension without `.` or `/` is named
   * after its stem.
   */
  lemma OutputOfExtension(dir: string, stem: string, ext: string)
    requires '\0' !in dir + stem + "." + ext
    requires dir == [] || dir[|dir| - 1] == '/'
    requires '/' !in stem && '/' !in ext && '.' !in ext
    ensures DefaultOutputName(dir + stem + "." + ext) == Bounded(stem + ".asm")
  {
    var path := dir + stem + "." + ext;
    assert path == dir + (stem + "." + ext);
    BaseAfterDir(dir, stem + "." + ext);
    var dotExt := "." + ext;
    assert path == (dir + stem) + dotExt;
    assert forall j :: 0 < j < |dotExt| ==> dotExt[j] == ext[j - 1];
    LastIndexRight(dir + stem, dotExt, '.', 0);
    OutputBeforeDot(path, |dir| + |stem|);
    assert path[|dir|..|dir| + |stem|] == stem;
  }

  /** A last `.` inside the file name: the name up to it, then ".asm". */
  lemma OutputBeforeDot(path: string, d: nat)
    requires '\0' !in path && LastIndex(path, '.') == Some(d) && BaseStart(path) <= d
    ensures DefaultOutputName(path) == Bounded(path[BaseStart(path)..d] + ".asm")
  {
  }

  /** A path whose text after the last `/` has no `.` is named after that whole text. */
  lemma OutputOfPlainName(dir: string, name: string)
    requires '\0' !in dir + name
    requires dir == [] || dir[|dir| - 1] == '/'
    requires '/' !in name && '.' !in name
    ensures DefaultOutputName(dir + name) == Bounded(name + ".asm")
  {
    var path := dir + name;
    BaseAfterDir(dir, name);
    LastIndexLeft(dir, name, '.');
    OutputWholeName(path);
    assert path[|dir|..] == name;
  }

  /** No `.` after the last `/`: the whole file name, then ".asm". */
  lemma OutputWholeName(path: string)
    requires '\0' !in path
    requires LastIndex(path, '.').None? || LastIndex(path, '.').value < BaseStart(path)
    ensures DefaultOutputName(path) == Bounded(path[BaseStart(path)..] + ".asm")
  {
    var base := BaseStart(path);
    assert path[base..|path|] == path[base..];
    assert DefaultOutputName(path) == Bounded(path[base..|path|] + ".asm");
  }

  // ---------------------------------------------------------------------------
  // parser
  // ---------------------------------------------------------------------------

  /** One option of the command line as getopt_long reads it: `-c` or `--name`. */
  datatype Flag = Short(c: char) | Long(name: string)

  /** The character of the first long option with that name, '?' when none has it. */
  function LongCode(name: string, table: seq<(string, char)>): (r: char)
    ensures r == '?' || exists i :: 0 <= i < |table| && table[i].0 == name && table[i].1 == r
    ensures (forall i :: 0 <= i < |table| ==> table[i].1 != '?') ==> (r == '?' <==> forall i :: 0 <= i < |table| ==> table[i].0 != name)
    decreases |table|
  {
    if |table| == 0 then '?'
    else if table[0].0 == name then table[0].1
    else LongCode(name, table[1..])
  }

  /** What getopt_long returns for an option: its character, or '?' for one it does not know. */
  function OptCode(f: Flag): (r: char)
    ensures r == '?' || r in "ahstw"
    ensures f.Short? ==> r == (if f.c in ShortOptions then f.c else '?')
    ensures f.Long? ==> (r == '?' <==> forall i :: 0 <= i < |LongOptions| ==> LongOptions[i].0 != f.name)
  {
    match f
    case Short(c) => if c in ShortOptions then c else '?'
    case Long(name) => LongCode(name, LongOptions)
  }

  /** The long option names, each giving its own character. */
  lemma LongCodes()
    ensures OptCode(Long("help")) == 'h' && OptCode(Long("tree")) == 't' && OptCode(Long("symtabs")) == 's'
    ensures OptCode(Long("only-tree")) == 'a' && OptCode(Long("only-semantic")) == 'w'
  {
  }

  /** `-w` is not in the short-option string, so getopt_long reports it as unknown; `--only-semantic` is known. */
  lemma ShortW()
    ensures OptCode(Short('w')) == '?' && OptCode(Long("only-semantic")) == 'w'
  {
  }

  /** The characters the switch handles without calling print_help. */
  predicate Sets(c: char) {
    c == 't' || c == 's' || c == 'a' || c == 'w'
  }

  /** The status print_help exits with: EXIT_SUCCESS for `h`, EXIT_FAILURE for anything unknown. */
  function HelpStatus(c: char): int {
    if c == 'h' then 0 else 1
  }

  /**
   * parser: the characters getopt_long returns, in order, each setting its
   * flag, until one makes print_help exit; then a single positional argument
   * becomes the path and names the output. With more than one, parser only
   * prints a message and keeps the defaults.
   */
  method Parse(opts: seq<char>, positional: seq<string>) returns (o: Settings, exit: Option<int>)
    requires forall k :: 0 <= k < |positional| ==> '\0' !in positional[k]
    ensures exit.None? <==> forall i :: 0 <= i < |opts| ==> Sets(opts[i])
    ensures exit.Some? ==>
      (exists k :: 0 <= k < |opts| && !Sets(opts[k]) && (forall i :: 0 <= i < k ==> Sets(opts[i])) && exit.value == HelpStatus(opts[k]))
    ensures exit.None? ==>
      (o.showTree <==> 't' in opts) && (o.symtabs <==> 's' in opts) && (o.onlyTree <==> 'a' in opts) && o.semantic
    ensures exit.None? ==> o.path == (if |positional| == 1 then Some(positional[0]) else None)
    ensures exit.None? ==> o.output == (if |positional| == 1 then DefaultOutputName(positional[0]) else AnonymousOutput)
  {
    o := InitOption();
    var i := 0;
    while i < |opts|
      invariant 0 <= i <= |opts|
      invariant forall k :: 0 <= k < i ==> Sets(opts[k])
      invariant o.path == None && o.output == AnonymousOutput && o.semantic
      invariant o.showTree <==> 't' in opts[..i]
      invariant o.symtabs <==> 's' in opts[..i]
      invariant o.onlyTree <==> 'a' in opts[..i]
    {
      assert opts[..i + 1] == opts[..i] + [opts[i]];
      var opt := opts[i];
      if opt == 't' {
        o := o.(showTree := true);
      } else if opt == 's' {
        o := o.(symtabs := true);
      } else if opt == 'h' {
        return o, Some(0);
      } else if opt == 'a' {
        o := o.(onlyTree := true);
      } else if opt == 'w' {
        o := o.(semantic := true);
      } else {
        return o, Some(1);
      }
      i := i + 1;
    }
    assert opts[..i] == opts;
    if |positional| == 1 {
      o := o.(path := Some(positional[0]), output := DefaultOutputName(positional[0]));
    }
    exit := None;
  }
}
