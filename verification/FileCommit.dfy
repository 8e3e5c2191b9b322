/**
  The commit protocol of the file data store: a value is written aside, renamed to a commit, and renamed into place.
 */
module FileCommit {
  import opened Wrappers
  import opened Bytes

  type Key = seq<Byte>
  type Value = seq<Byte>
  type Files = map<string, Value>

  // ----- file names

  function HexDigit(n: nat): char
    requires n < 16
  {
    if n < 10 then '0' + n as char else 'a' + (n - 10) as char
  }

  /** hex.EncodeToString */
  function Hex(key: Key): (s: string)
    ensures |s| == 2 * |key| && forall i :: 0 <= i < |s| ==> s[i] != '.'
  {
    if key == [] then [] else [HexDigit(key[0] / 16), HexDigit(key[0] % 16)] + Hex(key[1..])
  }

  lemma {:induction false} HexInjective(a: Key, b: Key)
    requires Hex(a) == Hex(b)
    ensures a == b
  {
    if a != [] {
      var s := Hex(a);
      assert s[0] == HexDigit(a[0] / 16) == HexDigit(b[0] / 16);
      assert s[1] == HexDigit(a[0] % 16) == HexDigit(b[0] % 16);
      assert s[2..] == Hex(a[1..]) && s[2..] == Hex(b[1..]);
      HexInjective(a[1..], b[1..]);
    }
  }

  function InPlace(key: Key): string { Hex(key) }

  function Aside(key: Key): string { Hex(key) + ".put" }

  function Commit(key: Key): string { Hex(key) + ".commit" }

  /** A name without a dot is what stands in front of the first dot. */
  lemma UpToTheDot(x: string, s: string, y: string, u: string)
    requires forall i :: 0 <= i < |x| ==> x[i] != '.'
    requires forall i :: 0 <= i < |y| ==> y[i] != '.'
    requires (s != [] ==> s[0] == '.') && (u != [] ==> u[0] == '.')
    ensures x + s == y + u ==> x == y && s == u
  {
    if x + s == y + u {
      var n := x + s;
      assert s != [] ==> n[|x|] == '.';
      assert u != [] ==> n[|y|] == '.';
      assert forall i :: 0 <= i < |x| ==> n[i] == x[i];
      assert forall i :: 0 <= i < |y| ==> n[i] == y[i];
      assert |x| == |y|;
      assert x == n[..|x|] && y == n[..|y|] && s == n[|x|..] && u == n[|y|..];
    }
  }

  /** No two of the files of two keys have the same name. */
  lemma NamesDiffer(a: Key, b: Key)
    ensures InPlace(a) != Aside(b) && InPlace(a) != Commit(b) && Aside(a) != Commit(b)
    ensures a != b ==> InPlace(a) != InPlace(b) && Aside(a) != Aside(b) && Commit(a) != Commit(b)
  {
    var x, y := Hex(a), Hex(b);
    assert x + [] == x;
    UpToTheDot(x, [], y, ".put");
    UpToTheDot(x, [], y, ".commit");
    UpToTheDot(x, ".put", y, ".commit");
    UpToTheDot(x, ".put", y, ".put");
    UpToTheDot(x, ".commit", y, ".commit");
    assert ".put"[1] != ".commit"[1];
    if x == y { HexInjective(a, b); }
  }

  // ----- what a disk stands for

  /** The value that a key has: a commit that is still to be applied counts before the file itself. */
  function Recovered(files: Files, key: Key): Option<Value> {
    if Commit(key) in files then Some(files[Commit(key)])
    else if InPlace(key) in files then Some(files[InPlace(key)])
    else None
  }

  /** No key but this one has changed its value. */
  ghost predicate OthersSame(before: Files, after: Files, key: Key) {
    forall other :: other != key ==> Recovered(after, other) == Recovered(before, other)
  }

  ghost predicate AllSame(before: Files, after: Files) {
    forall key :: Recovered(after, key) == Recovered(before, key)
  }

  /** What befalls one file-system step: a failed or interrupted write may leave anything in the file it writes. */
  datatype Fate = Works | Fails(left: Option<Value>) | Crashes(left: Option<Value>)

  datatype Outcome = Done | Failed | Crashed

  function Interrupted(fate: Fate): (r: Outcome)
    requires !fate.Works?
    ensures r != Done
  {
    if fate.Fails? then Failed else Crashed
  }

  lemma AsideDoesNotMatter(files: Files, key: Key, left: Option<Value>)
    ensures AllSame(files, Left(files, Aside(key), left))
  {
    forall other ensures Recovered(Left(files, Aside(key), left), other) == Recovered(files, other) {
      NamesDiffer(other, key);
      NamesDiffer(key, other);
    }
  }

  function Left(files: Files, name: string, left: Option<Value>): Files {
    match left case None => files case Some(v) => files[name := v]
  }

  /** Renaming the commit into place changes no value. */
  lemma ApplyingKeeps(files: Files, key: Key)
    requires Commit(key) in files
    ensures AllSame(files, (files - {Commit(key)})[InPlace(key) := files[Commit(key)]])
  {
    var files' := (files - {Commit(key)})[InPlace(key) := files[Commit(key)]];
    forall other ensures Recovered(files', other) == Recovered(files, other) {
      NamesDiffer(other, key);
      NamesDiffer(key, other);
    }
  }

  /** Renaming what was written aside to the commit gives the key its new value. */
  lemma CommittingSets(files: Files, key: Key, value: Value)
    requires Aside(key) in files && files[Aside(key)] == value
    ensures var files' := (files - {Aside(key)})[Commit(key) := value];
            Recovered(files', key) == Some(value) && OthersSame(files, files', key)
  {
    var files' := (files - {Aside(key)})[Commit(key) := value];
    forall other | other != key ensures Recovered(files', other) == Recovered(files, other) {
      NamesDiffer(other, key);
      NamesDiffer(key, other);
    }
  }

  class Bucket {
    var files: Files

    constructor (files: Files)
      ensures this.files == files
    {
      this.files := files;
    }

    /** os.Rename: all or nothing. */
    method Rename(from: string, to: string, fate: Fate) returns (r: Outcome)
      requires from in files && from != to
      modifies this
      ensures r == match fate case Works => Done case Fails(_) => Failed case Crashes(_) => Crashed
      ensures files == if r == Done then (old(files) - {from})[to := old(files)[from]] else old(files)
    {
      match fate {
        case Works =>
          files := (files - {from})[to := files[from]];
          r := Done;
        case Fails(_) => r := Failed;
        case Crashes(_) => r := Crashed;
      }
    }

    /** ioutil.WriteFile */
    method WriteFile(name: string, value: Value, fate: Fate) returns (r: Outcome)
      modifies this
      ensures r == match fate case Works => Done case Fails(_) => Failed case Crashes(_) => Crashed
      ensures files ==
        match fate case Works => old(files)[name := value] case Fails(left) => Left(old(files), name, left)
                                  case Crashes(left) => Left(old(files), name, left)
    {
      match fate {
        case Works =>
          files := files[name := value];
          r := Done;
        case Fails(left) =>
          if left.Some? { files := files[name := left.value]; }
          r := Failed;
        case Crashes(left) =>
          if left.Some? { files := files[name := left.value]; }
          r := Crashed;
      }
    }

    /** datastoreApplyCommit */
    method ApplyCommit(key: Key, fate: Fate) returns (r: Outcome)
      modifies this
      ensures AllSame(old(files), files)
      ensures r == Done ==> Commit(key) !in files
      ensures r == Done <==> Commit(key) !in old(files) || fate.Works?
    {
      if Commit(key) !in files { return Done; }
      NamesDiffer(key, key);
      ApplyingKeeps(files, key);
      r := Rename(Commit(key), InPlace(key), fate);
    }

    /**
      put: whatever step fails or crashes, the key has its old value or the new one, whole; once put has
      returned without error it has the new one. No other key is affected.
     */
    method Put(key: Key, value: Value, fates: (Fate, Fate, Fate, Fate)) returns (r: Outcome, ghost took: bool)
      modifies this
      ensures OthersSame(old(files), files, key)
      ensures Recovered(files, key) == if took then Some(value) else Recovered(old(files), key)
      ensures took <==> (Commit(key) in old(files) ==> fates.0.Works?) && fates.1.Works? && fates.2.Works?
      ensures r == Done <==> took && fates.3.Works?
      ensures r == Done ==> Commit(key) !in files && InPlace(key) in files && files[InPlace(key)] == value
    {
      took := false;
      r := ApplyCommit(key, fates.0);
      if r != Done { return; }
      ghost var files1 := files;
      r := WriteFile(Aside(key), value, fates.1);
      AsideDoesNotMatter(files1, key, if fates.1.Works? then Some(value) else fates.1.left);
      if r != Done { return; }
      ghost var files2 := files;
      NamesDiffer(key, key);
      CommittingSets(files, key, value);
      r := Rename(Aside(key), Commit(key), fates.2);
      if r != Done { return; }
      took := true;
      ghost var files3 := files;
      assert Recovered(files, key) == Some(value);
      r := ApplyCommit(key, fates.3);
    }

    /**
      get: completes a pending commit, then opens and reads the file if there is one; no value when any of it fails.
     */
    method Get(key: Key, fates: (Fate, Fate, Fate)) returns (r: Outcome, value: Option<Value>)
      modifies this
      ensures AllSame(old(files), files)
      ensures r == Done <==> (Commit(key) in old(files) ==> fates.0.Works?) && fates.1.Works?
                             && (Recovered(old(files), key).Some? ==> fates.2.Works?)
      ensures value == if r == Done then Recovered(old(files), key) else None
    {
      value := None;
      r := ApplyCommit(key, fates.0);
      if r != Done { return; }
      assert Recovered(files, key) == Recovered(old(files), key);
      if !fates.1.Works? { return Interrupted(fates.1), None; }
      if InPlace(key) !in files { return; }
      if !fates.2.Works? { return Interrupted(fates.2), None; }
      value := Some(files[InPlace(key)]);
    }

    /** A run of puts and gets, with whatever failures and crashes in between. */
    method Run(ops: seq<Op>) returns (results: seq<Result>, ghost took: seq<bool>)
      modifies this
      ensures |results| == |took| == |ops|
      ensures AllExplained(ops, results, took, View(old(files), ops))
    {
      hide Shows, ViewAfter, View, Explained, AllSame, OthersSame, Recovered;
      results, took := [], [];
      ghost var view := View(files, ops);
      ViewStart(files, ops);
      for i := 0 to |ops|
        invariant |results| == |took| == i
        invariant AllExplained(ops[..i], results, took, view)
        invariant Shows(files, ViewAfter(view, ops[..i], took), ops)
      {
        ghost var before, results0, took0 := files, results, took;
        match ops[i] {
          case Put(key, value, fates) =>
            var r, t := Put(key, value, fates);
            PutShown(before, files, ViewAfter(view, ops[..i], took), ops, i, r, t);
            results := results + [Result(r, None)];
            took := took + [t];
          case Get(key, fates) =>
            var r, v := Get(key, fates);
            GetShown(before, files, ViewAfter(view, ops[..i], took), ops, i, r, v);
            results := results + [Result(r, v)];
            took := took + [false];
        }
        ViewStep(view, ops, took0, took[i], i);
        ExplainedMore(ops, results0, took0, view, i, results[i], took[i]);
      }
      assert ops[..|ops|] == ops;
    }
  }

  // ----- runs

  datatype Op = Put(key: Key, value: Value, fates: (Fate, Fate, Fate, Fate)) | Get(key: Key, steps: (Fate, Fate, Fate))

  datatype Result = Result(outcome: Outcome, value: Option<Value>)

  /** What every key of interest holds. */
  type Contents = map<Key, Option<Value>>

  ghost function View(files: Files, ops: seq<Op>): Contents {
    map i | 0 <= i < |ops| :: ops[i].key := Recovered(files, ops[i].key)
  }

  /** The contents after those puts that took effect. */
  ghost function ViewAfter(view: Contents, ops: seq<Op>, took: seq<bool>): Contents
    requires |ops| == |took|
  {
    if ops == [] then view
    else
      var n := |ops| - 1;
      var before := ViewAfter(view, ops[..n], took[..n]);
      if ops[n].Put? && took[n] then before[ops[n].key := Some(ops[n].value)] else before
  }

  lemma ViewStart(files: Files, ops: seq<Op>)
    ensures Shows(files, ViewAfter(View(files, ops), ops[..0], []), ops)
  {}

  /** The contents after one more operation. */
  ghost function Effect(view: Contents, op: Op, took: bool): Contents {
    if op.Put? && took then view[op.key := Some(op.value)] else view
  }

  lemma ViewStep(view: Contents, ops: seq<Op>, took: seq<bool>, t: bool, i: nat)
    requires i < |ops| && |took| == i
    ensures ViewAfter(view, ops[..i + 1], took + [t]) == Effect(ViewAfter(view, ops[..i], took), ops[i], t)
  {
    assert ops[..i + 1][..i] == ops[..i] && (took + [t])[..i] == took;
  }

  ghost predicate AllExplained(ops: seq<Op>, results: seq<Result>, took: seq<bool>, view: Contents) {
    && |results| == |took| == |ops|
    && forall i :: 0 <= i < |ops| ==> Explained(ops[i], results[i], took[i], ViewAfter(view, ops[..i], took[..i]))
  }

  lemma ExplainedMore(ops: seq<Op>, results: seq<Result>, took: seq<bool>, view: Contents, i: nat, r: Result, t: bool)
    requires i < |ops| && AllExplained(ops[..i], results, took, view)
    requires Explained(ops[i], r, t, ViewAfter(view, ops[..i], took))
    ensures AllExplained(ops[..i + 1], results + [r], took + [t], view)
  {
    hide Explained, ViewAfter;
    var o, rs, ts := ops[..i + 1], results + [r], took + [t];
    forall j | 0 <= j <= i ensures Explained(o[j], rs[j], ts[j], ViewAfter(view, o[..j], ts[..j])) {
      assert o[..j] == ops[..i][..j] && ts[..j] == took[..j];
      if j < i { assert o[j] == ops[..i][j]; } else { assert took[..i] == took && ops[..i][..i] == ops[..i]; }
    }
  }

  lemma PutShown(before: Files, after: Files, view: Contents, ops: seq<Op>, i: nat, r: Outcome, took: bool)
    requires i < |ops| && ops[i].Put? && Shows(before, view, ops) && OthersSame(before, after, ops[i].key)
    requires Recovered(after, ops[i].key) == (if took then Some(ops[i].value) else Recovered(before, ops[i].key))
    requires r == Done ==> took
    ensures Shows(after, Effect(view, ops[i], took), ops) && Explained(ops[i], Result(r, None), took, view)
  {}

  lemma GetShown(before: Files, after: Files, view: Contents, ops: seq<Op>, i: nat, r: Outcome, v: Option<Value>)
    requires i < |ops| && ops[i].Get? && Shows(before, view, ops) && AllSame(before, after)
    requires v == if r == Done then Recovered(before, ops[i].key) else None
    ensures Shows(after, Effect(view, ops[i], false), ops) && Explained(ops[i], Result(r, v), false, view)
  {}

  /** The disk holds these contents. */
  ghost predicate Shows(files: Files, view: Contents, ops: seq<Op>) {
    && (forall i :: 0 <= i < |ops| ==> ops[i].key in view)
    && forall key :: key in view ==> view[key] == Recovered(files, key)
  }

  /** A put that returned without error took effect; a get that did returned what the key held, and any other none. */
  ghost predicate Explained(op: Op, r: Result, took: bool, view: Contents) {
    && (op.Put? && r.outcome == Done ==> took)
    && (op.Get? ==> op.key in view && r.value == if r.outcome == Done then view[op.key] else None)
  }
}
