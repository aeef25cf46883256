/** Secret rotation: vault values written into the .env file in place, and what both readers then find there. */
module KvSecrets {
  import opened Options
  import opened Text
  import opened DotEnv

  type Keyer = string -> string

  /** `line.split("=", 1)[0].strip()` */
  function KeyOf(line: string): string {
    Trim(line[..Equals(line)])
  }

  function AssignmentLine(key: string, value: string): string {
    key + "=" + value
  }

  /** The keys of the map that have a value to write, in an environment into which the vault has been fetched. */
  function ToWrite(kv: seq<string>, env: Values): Values {
    map k | k in kv && k in env && env[k] != "" :: env[k]
  }

  function RewrittenLine(keyOf: Keyer, values: Values, line: string): string {
    if keyOf(line) in values then AssignmentLine(keyOf(line), values[keyOf(line)]) else line
  }

  function Rewritten(keyOf: Keyer, values: Values, lines: seq<string>): (r: seq<string>)
    ensures |r| == |lines| && forall i | 0 <= i < |lines| :: r[i] == RewrittenLine(keyOf, values, lines[i])
  {
    if lines == [] then []
    else Rewritten(keyOf, values, lines[..|lines| - 1]) + [RewrittenLine(keyOf, values, lines[|lines| - 1])]
  }

  function Seen(keyOf: Keyer, values: Values, lines: seq<string>): set<string> {
    set l | l in lines && keyOf(l) in values :: keyOf(l)
  }

  function Appended(values: Values, kv: seq<string>, seen: set<string>): seq<string> {
    if kv == [] then []
    else
      var k, before := kv[|kv| - 1], Appended(values, kv[..|kv| - 1], seen);
      if k in values && k !in seen then before + [AssignmentLine(k, values[k])] else before
  }

  function PulledLines(keyOf: Keyer, values: Values, kv: seq<string>, lines: seq<string>): seq<string> {
    Rewritten(keyOf, values, lines) + Appended(values, kv, Seen(keyOf, values, lines))
  }

  type Reader = string -> string

  // The lines as they come back when the file is read, each changed by `back`.
  function Reread(back: Reader, lines: seq<string>): (r: seq<string>)
    ensures |r| == |lines| && forall i | 0 <= i < |lines| :: r[i] == back(lines[i])
  {
    seq(|lines|, i requires 0 <= i < |lines| => back(lines[i]))
  }

  /** `"\n".join(lines) + "\n"` */
  function FileText(lines: seq<string>): string {
    if lines == [] then "\n" else JoinLines(lines)
  }

  function PulledText(text: string, kv: seq<string>, env: Values): string {
    FileText(PulledLines(KeyOf, ToWrite(kv, env), kv, FileLines(text, AnyBreak)))
  }

  function Get(m: Values, k: string): Option<string> {
    if k in m then Some(m[k]) else None
  }

  /** The process with its environment, and the file. */
  class Process {
    var environ: Values
    var file: Option<string>

    constructor (environ: Values, file: Option<string>)
      ensures this.environ == environ && this.file == file
    {
      this.environ, this.file := environ, file;
    }

    /** `fetched` is what the vault returns; a backend sets keys of the map only. */
    method PullToEnv(kv: seq<string>, fetched: Values)
      requires forall k | k in fetched :: k in kv
      modifies this
      ensures environ == old(environ)
      ensures file == Some(PulledText(old(file).GetOr(""), kv, old(environ) + fetched))
    {
      ghost var before := environ;
      var saved := map k | k in kv :: Get(environ, k);
      environ := environ + fetched;
      var lines := if file.Some? then FileLines(file.value, AnyBreak) else [];
      assert lines == FileLines(file.GetOr(""), AnyBreak);
      var updated := Update(KeyOf, kv, environ, lines);
      file := Some(FileText(updated));
      Restore(kv, saved, before);
    }

    /** Every key of the map gets its saved value back, or is removed if it had none. */
    method Restore(kv: seq<string>, saved: map<string, Option<string>>, ghost before: Values)
      requires forall k | k in kv :: k in saved && saved[k] == Get(before, k)
      requires forall x | x !in kv :: Get(environ, x) == Get(before, x)
      modifies this`environ
      ensures environ == before
    {
      for n := 0 to |kv|
        invariant forall x | x !in kv[n..] :: Get(environ, x) == Get(before, x)
      {
        var k := kv[n];
        assert kv[n..] == [k] + kv[n + 1..];
        if saved[k].None? {
          environ := environ - {k};
        } else {
          environ := environ[k := saved[k].value];
        }
      }
      SameEntries(environ, before);
    }
  }

  lemma SameEntries(m: Values, n: Values)
    requires forall x :: Get(m, x) == Get(n, x)
    ensures m == n
  {
    forall x ensures x in m <==> x in n { assert Get(m, x) == Get(n, x); }
    forall x | x in m ensures m[x] == n[x] { assert Get(m, x) == Get(n, x); }
  }

  method Update(keyOf: Keyer, kv: seq<string>, env: Values, lines: seq<string>) returns (updated: seq<string>)
    ensures updated == PulledLines(keyOf, ToWrite(kv, env), kv, lines)
  {
    var rewritten, seen := Rewrite(keyOf, kv, env, lines);
    var missing := Missing(kv, env, seen);
    updated := rewritten + missing;
  }

  lemma RewrittenNext(keyOf: Keyer, values: Values, lines: seq<string>, n: nat)
    requires n < |lines|
    ensures Rewritten(keyOf, values, lines[..n + 1]) ==
            Rewritten(keyOf, values, lines[..n]) + [RewrittenLine(keyOf, values, lines[n])]
    ensures Seen(keyOf, values, lines[..n + 1]) ==
            Seen(keyOf, values, lines[..n]) + if keyOf(lines[n]) in values then {keyOf(lines[n])} else {}
  {
    assert lines[..n + 1][..n] == lines[..n];
    assert lines[..n + 1] == lines[..n] + [lines[n]];
  }

  method Rewrite(keyOf: Keyer, kv: seq<string>, env: Values, lines: seq<string>)
    returns (updated: seq<string>, seen: set<string>)
    ensures updated == Rewritten(keyOf, ToWrite(kv, env), lines)
    ensures seen == Seen(keyOf, ToWrite(kv, env), lines)
  {
    updated, seen := [], {};
    ghost var values := ToWrite(kv, env);
    for n := 0 to |lines|
      invariant updated == Rewritten(keyOf, values, lines[..n])
      invariant seen == Seen(keyOf, values, lines[..n])
    {
      RewrittenNext(keyOf, values, lines, n);
      var key := keyOf(lines[n]);
      if key in kv && key in env && env[key] != "" {
        updated := updated + [AssignmentLine(key, env[key])];
        seen := seen + {key};
      } else {
        updated := updated + [lines[n]];
      }
    }
    assert lines[..|lines|] == lines;
  }

  method Missing(kv: seq<string>, env: Values, seen: set<string>) returns (missing: seq<string>)
    ensures missing == Appended(ToWrite(kv, env), kv, seen)
  {
    missing := [];
    for n := 0 to |kv|
      invariant missing == Appended(ToWrite(kv, env), kv[..n], seen)
    {
      assert kv[..n + 1][..n] == kv[..n];
      if kv[n] !in seen && kv[n] in env && env[kv[n]] != "" {
        missing := missing + [AssignmentLine(kv[n], env[kv[n]])];
      }
    }
    assert kv[..|kv|] == kv;
  }
}
