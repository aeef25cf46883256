/** After a pull both readers agree on every key that was written, and find everything else as it was. */
module KvSecretsTheorems {
  import opened Options
  import opened Text
  import opened DotEnv
  import opened KvSecrets

  /******* The lines after a pull *******/

  /**
   What the parser and the rewriter must agree on: the key of each old line, and that a written line
   assigns its key; `read` is what the reader makes of the written values.
   */
  ghost predicate Agree(parse: Parser, keyOf: Keyer, values: Values, read: Values, lines: seq<string>) {
    && (forall l | l in lines && parse(l).Some? :: parse(l).value.0 == keyOf(l))
    && "" !in values && read.Keys == values.Keys
    && (forall k | k in values :: WrittenRight(parse, keyOf, k, values[k], read[k]))
  }

  predicate WrittenRight(parse: Parser, keyOf: Keyer, k: string, value: string, read: string) {
    parse(AssignmentLine(k, value)) == Some((k, read)) && keyOf(AssignmentLine(k, value)) == k
  }

  lemma {:induction false} AppendedContents(values: Values, kv: seq<string>, seen: set<string>, l: string)
    ensures l in Appended(values, kv, seen) <==>
            exists k | k in kv :: k in values && k !in seen && l == AssignmentLine(k, values[k])
  {
    if kv != [] {
      AppendedContents(values, kv[..|kv| - 1], seen, l);
      assert forall k :: k in kv <==> k in kv[..|kv| - 1] || k == kv[|kv| - 1];
    }
  }

  /** A key that is not written is assigned by the same lines, in the same places. */
  lemma OtherKeysStay(parse: Parser, keyOf: Keyer, values: Values, read: Values,
                      kv: seq<string>, lines: seq<string>, k: string, i: nat)
    requires Agree(parse, keyOf, values, read, lines) && k !in values
    requires i < |PulledLines(keyOf, values, kv, lines)|
    ensures var pulled := PulledLines(keyOf, values, kv, lines);
            && (Assigns(parse, pulled[i], k) <==> i < |lines| && Assigns(parse, lines[i], k))
            && (Assigns(parse, pulled[i], k) ==> pulled[i] == lines[i])
  {
    var seen := Seen(keyOf, values, lines);
    if i < |lines| {
      assert lines[i] in lines;
      if keyOf(lines[i]) in values {
        assert WrittenRight(parse, keyOf, keyOf(lines[i]), values[keyOf(lines[i])], read[keyOf(lines[i])]);
      }
    } else {
      var more := Appended(values, kv, seen);
      var l := more[i - |lines|];
      AppendedContents(values, kv, seen, l);
      var c :| c in kv && c in values && l == AssignmentLine(c, values[c]);
      assert WrittenRight(parse, keyOf, c, values[c], read[c]);
    }
  }

  /** A key that is written is assigned somewhere, and wherever it is assigned, with the written value. */
  lemma WrittenKeysAgree(parse: Parser, keyOf: Keyer, values: Values, read: Values,
                         kv: seq<string>, lines: seq<string>, k: string)
    requires Agree(parse, keyOf, values, read, lines) && k in values && k in kv
    ensures var pulled := PulledLines(keyOf, values, kv, lines);
            && Mentions(parse, pulled, k)
            && forall i | 0 <= i < |pulled| && Assigns(parse, pulled[i], k) :: parse(pulled[i]).value.1 == read[k]
  {
    var pulled := PulledLines(keyOf, values, kv, lines);
    var seen := Seen(keyOf, values, lines);
    var written := AssignmentLine(k, values[k]);
    assert WrittenRight(parse, keyOf, k, values[k], read[k]);
    if k in seen {
      var l :| l in lines && keyOf(l) == k;
      var i :| 0 <= i < |lines| && lines[i] == l;
      assert pulled[i] == written;
    } else {
      AppendedContents(values, kv, seen, written);
      var i :| 0 <= i < |Appended(values, kv, seen)| && Appended(values, kv, seen)[i] == written;
      assert pulled[|lines| + i] == written;
    }
    forall i | 0 <= i < |pulled| && Assigns(parse, pulled[i], k) ensures parse(pulled[i]).value.1 == read[k] {
      WrittenLine(parse, keyOf, values, read, kv, lines, k, i);
    }
  }

  lemma WrittenLine(parse: Parser, keyOf: Keyer, values: Values, read: Values,
                    kv: seq<string>, lines: seq<string>, k: string, i: nat)
    requires Agree(parse, keyOf, values, read, lines) && k in values
    requires i < |PulledLines(keyOf, values, kv, lines)| && Assigns(parse, PulledLines(keyOf, values, kv, lines)[i], k)
    ensures parse(PulledLines(keyOf, values, kv, lines)[i]).value.1 == read[k]
  {
    var seen := Seen(keyOf, values, lines);
    var c;
    if i < |lines| {
      assert lines[i] in lines;
      c := keyOf(lines[i]);
    } else {
      var l := Appended(values, kv, seen)[i - |lines|];
      AppendedContents(values, kv, seen, l);
      c :| c in kv && c in values && l == AssignmentLine(c, values[c]);
    }
    assert c in values ==> WrittenRight(parse, keyOf, c, values[c], read[c]);
  }

  /** After a pull the last-wins reader returns the written values, and for every other key what it returned before. */
  lemma LastWinsAfterPull(parse: Parser, keyOf: Keyer, values: Values, read: Values,
                          kv: seq<string>, lines: seq<string>)
    requires Agree(parse, keyOf, values, read, lines) && forall k | k in values :: k in kv
    ensures LastWins(parse, PulledLines(keyOf, values, kv, lines)) == LastWins(parse, lines) + read
  {
    var pulled := PulledLines(keyOf, values, kv, lines);
    forall k ensures Get(LastWins(parse, pulled), k) == Get(LastWins(parse, lines) + read, k) {
      LastWinsIs(parse, pulled, k);
      LastWinsIs(parse, lines, k);
      if k in values {
        WrittenKeysAgree(parse, keyOf, values, read, kv, lines, k);
        var i := LastExists(parse, pulled, k);
      } else {
        forall i | 0 <= i < |pulled|
          ensures Assigns(parse, pulled[i], k) <==> i < |lines| && Assigns(parse, lines[i], k)
          ensures Assigns(parse, pulled[i], k) ==> pulled[i] == lines[i]
        {
          OtherKeysStay(parse, keyOf, values, read, kv, lines, k, i);
        }
        if Mentions(parse, lines, k) {
          var i := LastExists(parse, lines, k);
          assert IsLast(parse, pulled, k, i);
        }
      }
    }
    SameEntries(LastWins(parse, pulled), LastWins(parse, lines) + read);
  }

  // The line is refused, and a pull does not write its key.
  predicate RefusedOther(parse: Parser, values: Values, lines: seq<string>, env: Values, i: nat) {
    Refused(parse, lines, env, i) && parse(lines[i]).value.0 !in values
  }

  ghost predicate FailsBeside(parse: Parser, values: Values, lines: seq<string>, env: Values) {
    exists i: nat :: RefusedOther(parse, values, lines, env, i)
  }

  /**
   The first-wins reader fails after a pull exactly if it is refused a key that is not written; otherwise it keeps its
   environment, returns the written values and for every other key what the old lines fill in.
   */
  lemma FirstWinsAfterPull(parse: Parser, keyOf: Keyer, values: Values, read: Values, kv: seq<string>,
                           lines: seq<string>, env: Values)
    requires Agree(parse, keyOf, values, read, lines) && forall k | k in values :: k in kv && Settable(k, read[k])
    ensures FirstWins(parse, PulledLines(keyOf, values, kv, lines), env) ==
            if FailsBeside(parse, values, lines, env) then None
            else Some(Filled(parse, lines, env) + (read - env.Keys))
  {
    var pulled := PulledLines(keyOf, values, kv, lines);
    FirstWinsIs(parse, pulled, env);
    FailsAfterPull(parse, keyOf, values, read, kv, lines, env);
    forall k ensures Get(Filled(parse, pulled, env), k) == Get(Filled(parse, lines, env) + (read - env.Keys), k) {
      FilledAfterPull(parse, keyOf, values, read, kv, lines, env, k);
    }
    SameEntries(Filled(parse, pulled, env), Filled(parse, lines, env) + (read - env.Keys));
  }

  lemma OthersFirst(parse: Parser, keyOf: Keyer, values: Values, read: Values, kv: seq<string>, lines: seq<string>,
                    k: string, i: nat)
    requires Agree(parse, keyOf, values, read, lines) && k !in values
    ensures var pulled := PulledLines(keyOf, values, kv, lines);
            && (IsFirst(parse, pulled, k, i) <==> IsFirst(parse, lines, k, i))
            && (IsFirst(parse, pulled, k, i) ==> i < |lines| && pulled[i] == lines[i])
  {
    var pulled := PulledLines(keyOf, values, kv, lines);
    forall j | 0 <= j < |pulled|
      ensures Assigns(parse, pulled[j], k) <==> j < |lines| && Assigns(parse, lines[j], k)
      ensures Assigns(parse, pulled[j], k) ==> pulled[j] == lines[j]
    {
      OtherKeysStay(parse, keyOf, values, read, kv, lines, k, j);
    }
  }

  lemma RefusedAfterPull(parse: Parser, keyOf: Keyer, values: Values, read: Values, kv: seq<string>,
                         lines: seq<string>, env: Values, i: nat)
    requires Agree(parse, keyOf, values, read, lines) && forall k | k in values :: k in kv && Settable(k, read[k])
    ensures Refused(parse, PulledLines(keyOf, values, kv, lines), env, i) <==>
            RefusedOther(parse, values, lines, env, i)
  {
    var pulled := PulledLines(keyOf, values, kv, lines);
    if Refused(parse, pulled, env, i) {
      var k := parse(pulled[i]).value.0;
      if k in values {
        WrittenKeysAgree(parse, keyOf, values, read, kv, lines, k);
      } else {
        OthersFirst(parse, keyOf, values, read, kv, lines, k, i);
      }
    }
    if RefusedOther(parse, values, lines, env, i) {
      OthersFirst(parse, keyOf, values, read, kv, lines, parse(lines[i]).value.0, i);
    }
  }

  lemma FailsAfterPull(parse: Parser, keyOf: Keyer, values: Values, read: Values, kv: seq<string>,
                       lines: seq<string>, env: Values)
    requires Agree(parse, keyOf, values, read, lines) && forall k | k in values :: k in kv && Settable(k, read[k])
    ensures Fails(parse, PulledLines(keyOf, values, kv, lines), env) <==> FailsBeside(parse, values, lines, env)
  {
    var pulled := PulledLines(keyOf, values, kv, lines);
    forall i: nat ensures Refused(parse, pulled, env, i) <==> RefusedOther(parse, values, lines, env, i) {
      RefusedAfterPull(parse, keyOf, values, read, kv, lines, env, i);
    }
    if i: nat :| Refused(parse, pulled, env, i) { assert RefusedOther(parse, values, lines, env, i); }
    if i: nat :| RefusedOther(parse, values, lines, env, i) { assert Refused(parse, pulled, env, i); }
  }

  lemma OthersMentioned(parse: Parser, keyOf: Keyer, values: Values, read: Values,
                        kv: seq<string>, lines: seq<string>, k: string)
    requires Agree(parse, keyOf, values, read, lines) && k !in values
    ensures Mentions(parse, PulledLines(keyOf, values, kv, lines), k) <==> Mentions(parse, lines, k)
  {
    var pulled := PulledLines(keyOf, values, kv, lines);
    if Mentions(parse, pulled, k) {
      var i :| 0 <= i < |pulled| && Assigns(parse, pulled[i], k);
      OtherKeysStay(parse, keyOf, values, read, kv, lines, k, i);
    }
    if Mentions(parse, lines, k) {
      var i :| 0 <= i < |lines| && Assigns(parse, lines[i], k);
      OtherKeysStay(parse, keyOf, values, read, kv, lines, k, i);
    }
  }

  lemma FilledAfterPull(parse: Parser, keyOf: Keyer, values: Values, read: Values, kv: seq<string>,
                        lines: seq<string>, env: Values, k: string)
    requires Agree(parse, keyOf, values, read, lines) && forall k | k in values :: k in kv
    ensures Get(Filled(parse, PulledLines(keyOf, values, kv, lines), env), k) ==
            Get(Filled(parse, lines, env) + (read - env.Keys), k)
  {
    var pulled := PulledLines(keyOf, values, kv, lines);
    FilledIs(parse, pulled, env, k);
    FilledIs(parse, lines, env, k);
    if k in values {
      WrittenKeysAgree(parse, keyOf, values, read, kv, lines, k);
      var i := FirstExists(parse, pulled, k);
    } else {
      OthersMentioned(parse, keyOf, values, read, kv, lines, k);
      if Mentions(parse, lines, k) {
        var i := FirstExists(parse, lines, k);
        OthersFirst(parse, keyOf, values, read, kv, lines, k, i);
      }
    }
  }

  lemma RewritingAgain(keyOf: Keyer, values: Values, kv: seq<string>, lines: seq<string>, back: Reader, i: nat)
    requires forall k | k in values :: keyOf(back(AssignmentLine(k, values[k]))) == k
    requires forall l | l in lines :: back(l) == l
    requires i < |PulledLines(keyOf, values, kv, lines)|
    ensures var pulled := PulledLines(keyOf, values, kv, lines);
            RewrittenLine(keyOf, values, back(pulled[i])) == pulled[i]
  {
    var seen := Seen(keyOf, values, lines);
    if i >= |lines| {
      AppendedContents(values, kv, seen, Appended(values, kv, seen)[i - |lines|]);
    } else {
      assert lines[i] in lines;
    }
  }

  lemma WrittenIsThere(keyOf: Keyer, values: Values, kv: seq<string>, lines: seq<string>, k: string) returns (i: nat)
    requires k in values && k in kv
    ensures i < |PulledLines(keyOf, values, kv, lines)|
    ensures PulledLines(keyOf, values, kv, lines)[i] == AssignmentLine(k, values[k])
  {
    var seen, written := Seen(keyOf, values, lines), AssignmentLine(k, values[k]);
    if k in seen {
      i :| 0 <= i < |lines| && keyOf(lines[i]) == k;
    } else {
      AppendedContents(values, kv, seen, written);
      var j :| 0 <= j < |Appended(values, kv, seen)| && Appended(values, kv, seen)[j] == written;
      i := |lines| + j;
    }
  }

  lemma SeenAgain(keyOf: Keyer, values: Values, kv: seq<string>, lines: seq<string>, back: Reader, k: string)
    requires k in values && k in kv && keyOf(back(AssignmentLine(k, values[k]))) == k
    ensures k in Seen(keyOf, values, Reread(back, PulledLines(keyOf, values, kv, lines)))
  {
    var again := Reread(back, PulledLines(keyOf, values, kv, lines));
    var i := WrittenIsThere(keyOf, values, kv, lines, k);
    assert again[i] in again;
  }

  /** A second pull of the same values changes no line, if what reading back changes keeps the keys of written lines. */
  lemma SecondPullChangesNothing(keyOf: Keyer, values: Values, kv: seq<string>, lines: seq<string>, back: Reader)
    requires forall k | k in values :: k in kv && keyOf(back(AssignmentLine(k, values[k]))) == k
    requires forall l | l in lines :: back(l) == l
    ensures var pulled := PulledLines(keyOf, values, kv, lines);
            PulledLines(keyOf, values, kv, Reread(back, pulled)) == pulled
  {
    var pulled := PulledLines(keyOf, values, kv, lines);
    var again := Reread(back, pulled);
    forall i | 0 <= i < |pulled| ensures RewrittenLine(keyOf, values, again[i]) == pulled[i] {
      RewritingAgain(keyOf, values, kv, lines, back, i);
    }
    assert Rewritten(keyOf, values, again) == pulled;
    forall k | k in values ensures k in Seen(keyOf, values, again) { SeenAgain(keyOf, values, kv, lines, back, k); }
    AppendsNothing(values, kv, Seen(keyOf, values, again));
  }

  lemma {:induction false} AppendsNothing(values: Values, kv: seq<string>, seen: set<string>)
    requires forall k | k in values :: k in seen
    ensures Appended(values, kv, seen) == []
  {
    if kv != [] {
      AppendsNothing(values, kv[..|kv| - 1], seen);
    }
  }
}
