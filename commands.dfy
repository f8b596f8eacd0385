/**
 * Console command arguments (`EventArgs`): key/value pairs kept in key
 * order, as the engine's `std::map<std::string, std::string>` keeps them,
 * with the lookups and the command-line text the handlers build from them.
 */
module Commands {

  /** `std::string` ordering: by character code, a proper prefix first. */
  predicate KeyLess(a: string, b: string)
    decreases |a|
  {
    if |a| == 0 then |b| > 0
    else if |b| == 0 then false
    else if a[0] != b[0] then a[0] < b[0]
    else KeyLess(a[1..], b[1..])
  }

  lemma {:induction false} KeyLessIrreflexive(a: string)
    ensures !KeyLess(a, a)
    decreases |a|
  {
    if |a| > 0 {
      KeyLessIrreflexive(a[1..]);
    }
  }

  lemma {:induction false} KeyLessTransitive(a: string, b: string, c: string)
    requires KeyLess(a, b) && KeyLess(b, c)
    ensures KeyLess(a, c)
    decreases |a|
  {
    if |a| > 0 && |b| > 0 && |c| > 0 && a[0] == b[0] && b[0] == c[0] {
      KeyLessTransitive(a[1..], b[1..], c[1..]);
    }
  }

  /** Two different keys are ordered one way or the other. */
  lemma {:induction false} KeyLessTotal(a: string, b: string)
    requires a != b
    ensures KeyLess(a, b) || KeyLess(b, a)
    decreases |a|
  {
    if |a| > 0 && |b| > 0 && a[0] == b[0] {
      assert a == [a[0]] + a[1..] && b == [b[0]] + b[1..];
      KeyLessTotal(a[1..], b[1..]);
    }
  }

  /** The arguments of one command, in key order. */
  type Args = seq<(string, string)>

  /** Keys strictly increase, so each key appears once. */
  predicate Sorted(args: Args) {
    forall i, j :: 0 <= i < j < |args| ==> KeyLess(args[i].0, args[j].0)
  }

  /** The keys of a sorted argument list are distinct. */
  lemma SortedKeysDistinct(args: Args, i: int, j: int)
    requires Sorted(args) && 0 <= i < |args| && 0 <= j < |args| && i != j
    ensures args[i].0 != args[j].0
  {
    if i < j {
      if args[i].0 == args[j].0 {
        KeyLessIrreflexive(args[i].0);
      }
    } else {
      if args[i].0 == args[j].0 {
        KeyLessIrreflexive(args[j].0);
      }
    }
  }

  predicate HasKey(args: Args, key: string) {
    exists i :: 0 <= i < |args| && args[i].0 == key
  }

  /** `EventArgs::GetValue`: the value stored under a key, the default when the key is absent. */
  function GetValue(args: Args, key: string, default: string): (v: string)
    ensures !HasKey(args, key) ==> v == default
    ensures HasKey(args, key) ==> exists i :: 0 <= i < |args| && args[i] == (key, v)
  {
    if |args| == 0 then default
    else if args[0].0 == key then args[0].1
    else
      var v := GetValue(args[1..], key, default);
      HasKeyInTail(args, key, v);
      v
  }

  /** A key other than the first one's is found in the rest of the list. */
  lemma HasKeyInTail(args: Args, key: string, v: string)
    requires |args| > 0 && args[0].0 != key
    requires HasKey(args[1..], key) ==> exists i :: 0 <= i < |args[1..]| && args[1..][i] == (key, v)
    ensures HasKey(args, key) <==> HasKey(args[1..], key)
    ensures HasKey(args, key) ==> exists i :: 0 <= i < |args| && args[i] == (key, v)
  {
    if HasKey(args, key) {
      var i :| 0 <= i < |args| && args[i].0 == key;
      assert args[1..][i - 1].0 == key;
    }
    if HasKey(args[1..], key) {
      var i :| 0 <= i < |args[1..]| && args[1..][i] == (key, v);
      assert args[i + 1] == (key, v);
    }
  }

  /** `EventArgs::GetKeyNums`: how many keys are set. */
  function KeyCount(args: Args): nat {
    |args|
  }

  /** `EventArgs::SetValue`: store a value under a key, replacing an earlier one, keeping key order. */
  function SetValue(args: Args, key: string, value: string): (r: Args)
    requires Sorted(args)
    ensures Sorted(r)
    ensures |r| > 0 && (r[0].0 == key || (|args| > 0 && r[0].0 == args[0].0))
    ensures forall i :: 0 <= i < |r| ==> r[i] == (key, value) || (r[i] in args && r[i].0 != key)
    ensures (key, value) in r
    ensures forall p :: p in args && p.0 != key ==> p in r
  {
    if |args| == 0 then [(key, value)]
    else if args[0].0 == key then
      var r := [(key, value)] + args[1..];
      forall i, j | 0 <= i < j < |r| ensures KeyLess(r[i].0, r[j].0) {
        assert i > 0 || r[j].0 == args[j].0;
      }
      forall i | 0 < i < |r| ensures r[i].0 != key {
        SortedKeysDistinct(args, 0, i);
      }
      r
    else if KeyLess(key, args[0].0) then
      var r := [(key, value)] + args;
      forall i, j | 0 <= i < j < |r| ensures KeyLess(r[i].0, r[j].0) {
        if i == 0 && j > 1 {
          KeyLessTransitive(key, args[0].0, args[j - 1].0);
        }
      }
      forall i | 0 < i < |r| ensures r[i].0 != key {
        if i > 1 {
          KeyLessTransitive(key, args[0].0, args[i - 1].0);
        }
        if r[i].0 == key {
          KeyLessIrreflexive(key);
        }
      }
      r
    else
      KeyLessTotal(key, args[0].0);
      SortedTail(args);
      var tail := SetValue(args[1..], key, value);
      var r := [args[0]] + tail;
      forall i, j | 0 <= i < j < |r| ensures KeyLess(r[i].0, r[j].0) {
        if i == 0 {
          if tail[j - 1] != (key, value) {
            assert tail[j - 1] in args[1..];
            var m :| 0 <= m < |args[1..]| && args[1..][m] == tail[j - 1];
            assert KeyLess(args[0].0, args[m + 1].0);
          }
        }
      }
      r
  }

  /** Reading a key back after setting it gives the value set. */
  lemma {:induction false} GetAfterSet(args: Args, key: string, value: string, default: string)
    requires Sorted(args)
    ensures GetValue(SetValue(args, key, value), key, default) == value
  {
    var r := SetValue(args, key, value);
    assert HasKey(r, key);
    var i :| 0 <= i < |r| && r[i] == (key, GetValue(r, key, default));
    var j :| 0 <= j < |r| && r[j] == (key, value);
    if i != j {
      SortedKeysDistinct(r, i, j);
    }
  }

  /** Setting one key leaves every other key's value as it was. */
  lemma {:induction false} GetAfterSetOther(args: Args, key: string, value: string, other: string, default: string)
    requires Sorted(args) && other != key
    ensures GetValue(SetValue(args, key, value), other, default) == GetValue(args, other, default)
  {
    var r := SetValue(args, key, value);
    if HasKey(args, other) {
      var i :| 0 <= i < |args| && args[i] == (other, GetValue(args, other, default));
      assert args[i] in r;
      var k :| 0 <= k < |r| && r[k] == args[i];
      var j :| 0 <= j < |r| && r[j] == (other, GetValue(r, other, default));
      if j != k {
        SortedKeysDistinct(r, j, k);
      }
    }
  }

  /**
   * The engine's boolean argument check, as the handlers use it: absent or
   * `"false"` is 0, `"true"` is 1, anything else is -1.
   */
  function BoolArg(s: string): (v: int)
    ensures v == 0 || v == 1 || v == -1
    ensures v == 1 <==> s == "true"
    ensures v == 0 <==> s == "" || s == "false"
  {
    if s == "" || s == "false" then 0 else if s == "true" then 1 else -1
  }

  /** The piece of text one pair contributes: ` key=value`, or nothing for a skipped key. */
  function PairText(p: (string, string), skip: set<string>): string {
    if p.0 in skip then "" else " " + p.0 + "=" + p.1
  }

  /** The pieces of all pairs, in key order. */
  function Pieces(args: Args, skip: set<string>): (ss: seq<string>)
    ensures |ss| == |args|
    ensures forall i :: 0 <= i < |args| ==> ss[i] == PairText(args[i], skip)
  {
    seq(|args|, i requires 0 <= i < |args| => PairText(args[i], skip))
  }

  /** Strings written one after the other, first to last. */
  function Join(ss: seq<string>): string {
    if |ss| == 0 then "" else Join(ss[..|ss| - 1]) + ss[|ss| - 1]
  }

  /**
   * The text a handler appends for its arguments: ` key=value` per pair in
   * key order, skipping the given keys.
   */
  function ArgsText(args: Args, skip: set<string>): string {
    Join(Pieces(args, skip))
  }

  /** Joining a list that starts with a given string. */
  lemma {:induction false} JoinCons(s: string, ss: seq<string>)
    ensures Join([s] + ss) == s + Join(ss)
    decreases |ss|
  {
    var whole := [s] + ss;
    if |ss| == 0 {
      assert whole[..0] == [];
    } else {
      var init := ss[..|ss| - 1];
      JoinCons(s, init);
      assert whole[..|whole| - 1] == [s] + init;
      assert whole[|whole| - 1] == ss[|ss| - 1];
      Associative(s, Join(init), ss[|ss| - 1]);
    }
  }

  /** Concatenation of sequences (and so of strings) is associative. */
  lemma Associative<T>(a: seq<T>, b: seq<T>, c: seq<T>)
    ensures (a + b) + c == a + (b + c)
  {
  }

  /** The pieces of a list that starts with a given pair. */
  lemma PiecesCons(p: (string, string), rest: Args, skip: set<string>)
    ensures Pieces([p] + rest, skip) == [PairText(p, skip)] + Pieces(rest, skip)
  {
  }

  /** The text of a list that starts with a given pair. */
  lemma ArgsTextCons(p: (string, string), rest: Args, skip: set<string>)
    ensures ArgsText([p] + rest, skip) == PairText(p, skip) + ArgsText(rest, skip)
  {
    PiecesCons(p, rest, skip);
    JoinCons(PairText(p, skip), Pieces(rest, skip));
  }

  /** Where `SetValue` puts a new key: before the first larger key. */
  lemma SetValueNewKey(args: Args, key: string, value: string)
    requires Sorted(args) && |args| > 0 && args[0].0 != key
    ensures KeyLess(key, args[0].0) ==> SetValue(args, key, value) == [(key, value)] + args
    ensures !KeyLess(key, args[0].0) ==> SetValue(args, key, value) == [args[0]] + SetValue(args[1..], key, value)
  {
  }

  /** The rest of a sorted list is sorted. */
  lemma SortedTail(args: Args)
    requires Sorted(args) && |args| > 0
    ensures Sorted(args[1..])
  {
    forall i, j | 0 <= i < j < |args| - 1
      ensures KeyLess(args[1..][i].0, args[1..][j].0)
    {
      assert args[1..][i] == args[i + 1] && args[1..][j] == args[j + 1];
    }
  }

  /** The inductive step: a new key placed past the first pair. */
  lemma SkippedKeyStep(args: Args, key: string, value: string, skip: set<string>)
    requires Sorted(args) && |args| > 0 && args[0].0 != key && !KeyLess(key, args[0].0)
    requires ArgsText(SetValue(args[1..], key, value), skip) == ArgsText(args[1..], skip)
    ensures ArgsText(SetValue(args, key, value), skip) == ArgsText(args, skip)
  {
    SortedTail(args);
    var rest := SetValue(args[1..], key, value);
    SetValueNewKey(args, key, value);
    calc {
      ArgsText(SetValue(args, key, value), skip);
      ArgsText([args[0]] + rest, skip);
      { ArgsTextCons(args[0], rest, skip); }
      PairText(args[0], skip) + ArgsText(rest, skip);
      PairText(args[0], skip) + ArgsText(args[1..], skip);
      { ArgsTextCons(args[0], args[1..], skip); }
      ArgsText([args[0]] + args[1..], skip);
      { assert [args[0]] + args[1..] == args; }
      ArgsText(args, skip);
    }
  }

  /**
   * Adding a pair under a skipped key leaves the text as it was: the value
   * of a skipped key never reaches the line.
   */
  lemma {:induction false} SkippedKeyNotInText(args: Args, key: string, value: string, skip: set<string>)
    requires Sorted(args) && key in skip && !HasKey(args, key)
    ensures ArgsText(SetValue(args, key, value), skip) == ArgsText(args, skip)
    decreases |args|
  {
    if |args| == 0 {
      ArgsTextCons((key, value), args, skip);
      assert SetValue(args, key, value) == [(key, value)] + args;
    } else if KeyLess(key, args[0].0) {
      assert args[0].0 != key;
      SetValueNewKey(args, key, value);
      ArgsTextCons((key, value), args, skip);
    } else {
      assert args[0].0 != key;
      assert !HasKey(args[1..], key);
      SortedTail(args);
      SkippedKeyNotInText(args[1..], key, value, skip);
      SkippedKeyStep(args, key, value, skip);
    }
  }
}
