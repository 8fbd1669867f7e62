/**
 * The environment-derived settings: `LOG_LEVEL` and the list of guild ids that
 * the slash-command group is registered in (`GUILD_IDS`). An unset variable is
 * `None`; `os.getenv(name, default)` becomes `GetOr(default)`.
 */
module Config {
  import opened Wrappers
  import opened Ascii

  // ---------------------------------------------------------------- split / join

  /** Python's `s.split(sep)` for a one-character separator: the pieces between
      separators, empty pieces kept, so `""` splits into `[""]`. */
  function Split(s: string, sep: char): (parts: seq<string>)
    ensures |parts| >= 1
    decreases |s|
  {
    if s == [] then [""]
    else
      var rest := Split(s[1..], sep);
      if s[0] == sep then [""] + rest
      else [[s[0]] + rest[0]] + rest[1..]
  }

  /** The number of occurrences of `sep` in `s`. */
  function Count(s: string, sep: char): nat
    decreases |s|
  {
    if s == [] then 0 else (if s[0] == sep then 1 else 0) + Count(s[1..], sep)
  }

  /** `sep.join(parts)`. */
  function Join(parts: seq<string>, sep: char): string
    requires |parts| >= 1
    decreases |parts|
  {
    if |parts| == 1 then parts[0] else parts[0] + [sep] + Join(parts[1..], sep)
  }

  /** No piece contains the separator. */
  lemma {:induction false} SplitPiecesFree(s: string, sep: char)
    ensures forall i :: 0 <= i < |Split(s, sep)| ==> sep !in Split(s, sep)[i]
    decreases |s|
  {
    if s != [] {
      SplitPiecesFree(s[1..], sep);
      var rest := Split(s[1..], sep);
      if s[0] != sep {
        var parts := Split(s, sep);
        assert parts[0] == [s[0]] + rest[0];
        forall i | 1 <= i < |parts| ensures sep !in parts[i] {
          assert parts[i] == rest[i];
        }
      }
    }
  }

  /** Joining the pieces with the separator gives back the string. */
  lemma {:induction false} JoinSplit(s: string, sep: char)
    ensures Join(Split(s, sep), sep) == s
    decreases |s|
  {
    if s != [] {
      var rest := Split(s[1..], sep);
      JoinSplit(s[1..], sep);
      assert Join(rest, sep) == s[1..];
      var parts := Split(s, sep);
      if s[0] == sep {
        assert parts == [""] + rest;
        JoinCons("", rest, sep);
      } else {
        var first := [s[0]] + rest[0];
        assert parts == [first] + rest[1..];
        if |rest| == 1 {
          assert Join(parts, sep) == first;
        } else {
          JoinCons(first, rest[1..], sep);
          JoinCons(rest[0], rest[1..], sep);
          assert rest == [rest[0]] + rest[1..];
        }
      }
      assert s == [s[0]] + s[1..];
    }
  }

  lemma JoinCons(p: string, rest: seq<string>, sep: char)
    requires |rest| >= 1
    ensures Join([p] + rest, sep) == p + [sep] + Join(rest, sep)
  {
    assert ([p] + rest)[1..] == rest;
  }

  /** There is one more piece than there are separators. */
  lemma {:induction false} SplitCount(s: string, sep: char)
    ensures |Split(s, sep)| == Count(s, sep) + 1
    decreases |s|
  {
    if s != [] {
      SplitCount(s[1..], sep);
    }
  }

  /** Splitting undoes joining pieces that do not contain the separator. */
  lemma {:induction false} SplitJoin(parts: seq<string>, sep: char)
    requires |parts| >= 1
    requires forall i :: 0 <= i < |parts| ==> sep !in parts[i]
    ensures Split(Join(parts, sep), sep) == parts
    decreases |parts|
  {
    if |parts| == 1 {
      SplitNoSeparator(parts[0], sep);
    } else {
      SplitJoin(parts[1..], sep);
      SplitConcat(parts[0], Join(parts[1..], sep), sep);
      SplitNoSeparator(parts[0], sep);
    }
  }

  /** A string without the separator splits into itself alone. */
  lemma {:induction false} SplitNoSeparator(s: string, sep: char)
    requires sep !in s
    ensures Split(s, sep) == [s]
    decreases |s|
  {
    if s != [] {
      assert sep !in s[1..] by {
        forall i | 0 <= i < |s[1..]| ensures s[1..][i] != sep {
          assert s[1..][i] == s[i + 1];
        }
      }
      SplitNoSeparator(s[1..], sep);
      assert [s[0]] + s[1..] == s;
    }
  }

  /** Splitting at a separator: the pieces of `a + sep + b` are those of `a`
      followed by those of `b`. */
  lemma {:induction false} SplitConcat(a: string, b: string, sep: char)
    ensures Split(a + [sep] + b, sep) == Split(a, sep) + Split(b, sep)
    decreases |a|
  {
    if a == [] {
      assert a + [sep] + b == [sep] + b;
      SplitCons(sep, b, sep);
    } else {
      var t := a[1..] + [sep] + b;
      assert a + [sep] + b == [a[0]] + t;
      assert a == [a[0]] + a[1..];
      SplitConcat(a[1..], b, sep);
      var ra := Split(a[1..], sep);
      var rb := Split(b, sep);
      SplitCons(a[0], t, sep);
      SplitCons(a[0], a[1..], sep);
      if a[0] == sep {
        AppendAssoc([""], ra, rb);
      } else {
        HeadTailAppend(ra, rb);
        AppendAssoc([[a[0]] + ra[0]], ra[1..], rb);
      }
    }
  }

  lemma AppendAssoc<T>(x: seq<T>, y: seq<T>, z: seq<T>)
    ensures x + (y + z) == (x + y) + z
  {
  }

  lemma HeadTailAppend<T>(x: seq<T>, y: seq<T>)
    requires |x| >= 1
    ensures (x + y)[0] == x[0] && (x + y)[1..] == x[1..] + y
  {
  }

  /** Splitting a string that starts with `x`. */
  lemma SplitCons(x: char, t: string, sep: char)
    ensures Split([x] + t, sep) ==
      var rest := Split(t, sep);
      if x == sep then [""] + rest else [[x] + rest[0]] + rest[1..]
  {
    assert ([x] + t)[1..] == t;
  }

  // ---------------------------------------------------------------- GUILD_IDS

  /** The comprehension over the pieces: keep each piece whose stripped form is
      all digits, as the number it spells. */
  function GuildIds(tokens: seq<string>): (ids: seq<nat>)
    ensures |ids| <= |tokens|
    decreases |tokens|
  {
    if tokens == [] then [] else TokenId(tokens[0]) + GuildIds(tokens[1..])
  }

  /** What one piece contributes: its number when, stripped, it is all digits. */
  function TokenId(t: string): (ids: seq<nat>)
    ensures |ids| <= 1
  {
    var s := Strip(t);
    if IsAllDigits(s) then [ParseNat(s)] else []
  }

  /** The comprehension works piece by piece: the ids of a concatenation are the
      ids of each part, in order. */
  lemma {:induction false} GuildIdsAppend(a: seq<string>, b: seq<string>)
    ensures GuildIds(a + b) == GuildIds(a) + GuildIds(b)
    decreases |a|
  {
    if a == [] {
      assert a + b == b;
    } else {
      HeadTailAppend(a, b);
      GuildIdsAppend(a[1..], b);
      AppendAssoc(TokenId(a[0]), GuildIds(a[1..]), GuildIds(b));
    }
  }

  /** One piece yields its number exactly when, stripped, it is all digits. */
  lemma GuildIdsSingle(t: string)
    ensures GuildIds([t]) == if IsAllDigits(Strip(t)) then [ParseNat(Strip(t))] else []
  {
    assert [t][1..] == [];
  }

  /** `GUILD_IDS` from the environment variable, `""` when unset. */
  function ParseGuildIds(env: Option<string>): (ids: seq<nat>)
  {
    GuildIds(Split(env.GetOr(""), ','))
  }

  /** There are never more ids than comma-separated entries. */
  lemma ParseGuildIdsBound(env: Option<string>)
    ensures |ParseGuildIds(env)| <= Count(env.GetOr(""), ',') + 1
  {
    SplitCount(env.GetOr(""), ',');
  }

  /** An unset or empty variable registers the commands globally (no guild ids). */
  lemma NoGuildIds()
    ensures ParseGuildIds(None) == []
    ensures ParseGuildIds(Some("")) == []
  {
    assert Split("", ',') == [""];
    GuildIdsSingle("");
    assert Strip("") == "";
  }

  /** Ids separated by a comma are read independently of each other: a malformed
      entry drops only itself. */
  lemma ParseGuildIdsConcat(a: string, b: string)
    ensures ParseGuildIds(Some(a + "," + b)) == ParseGuildIds(Some(a)) + ParseGuildIds(Some(b))
  {
    SplitConcat(a, b, ',');
    GuildIdsAppend(Split(a, ','), Split(b, ','));
  }

  /** A variable holding no comma yields at most its one id. */
  lemma ParseGuildIdsSingle(s: string)
    requires ',' !in s
    ensures ParseGuildIds(Some(s)) == if IsAllDigits(Strip(s)) then [ParseNat(Strip(s))] else []
  {
    SplitNoSeparator(s, ',');
    GuildIdsSingle(s);
  }

  /** The variable as an operator writes it: the ids in decimal, comma-separated. */
  function FormatGuildIds(ids: seq<nat>): (s: string)
    ensures ids == [] <==> s == ""
  {
    if ids == [] then "" else Join(IdTokens(ids), ',')
  }

  function IdTokens(ids: seq<nat>): (tokens: seq<string>)
    ensures |tokens| == |ids|
    ensures forall i :: 0 <= i < |ids| ==> tokens[i] == NatToString(ids[i])
    decreases |ids|
  {
    if ids == [] then [] else [NatToString(ids[0])] + IdTokens(ids[1..])
  }

  /** A decimal number has no surrounding whitespace. */
  lemma StripNumber(n: nat)
    ensures Strip(NatToString(n)) == NatToString(n)
  {
    var s := NatToString(n);
    assert !IsSpace(s[0]);
    assert SpaceRunEnd(s, 0) == 0;
    assert StripStart(s) == s;
    assert !IsSpace(s[|s| - 1]);
    assert SpaceRunStart(s, |s|) == |s|;
    assert StripEnd(s) == s;
  }

  /** Every id list written out and read back is the same list. */
  lemma {:induction false} ParseFormatGuildIds(ids: seq<nat>)
    ensures ParseGuildIds(Some(FormatGuildIds(ids))) == ids
  {
    if ids == [] {
      NoGuildIds();
    } else {
      var tokens := IdTokens(ids);
      forall i | 0 <= i < |tokens| ensures ',' !in tokens[i] {
        DigitsHaveNoComma(tokens[i]);
      }
      SplitJoin(tokens, ',');
      GuildIdsOfNumbers(ids);
    }
  }

  lemma DigitsHaveNoComma(s: string)
    requires AllDigitChars(s)
    ensures ',' !in s
  {
    forall k | 0 <= k < |s| ensures s[k] != ',' {
      assert IsDigit(s[k]);
    }
  }

  lemma NumberTokenId(n: nat)
    ensures TokenId(NatToString(n)) == [n]
  {
    StripNumber(n);
    ParseNatToString(n);
  }

  /** Reading back the decimal forms of numbers gives the numbers. */
  lemma {:induction false} GuildIdsOfNumbers(ids: seq<nat>)
    ensures GuildIds(IdTokens(ids)) == ids
    decreases |ids|
  {
    if ids != [] {
      var tokens := IdTokens(ids);
      assert tokens[1..] == IdTokens(ids[1..]);
      NumberTokenId(ids[0]);
      GuildIdsOfNumbers(ids[1..]);
    }
  }

  // ---------------------------------------------------------------- LOG_LEVEL

  /** `LOG_LEVEL`: the variable upper-cased, `"INFO"` when unset. */
  function LogLevel(env: Option<string>): (level: string)
    ensures env.None? ==> level == "INFO"
    ensures |level| == |env.GetOr("INFO")|
    ensures forall i :: 0 <= i < |level| ==> !IsLowerLetter(level[i])
    ensures forall i :: 0 <= i < |level| ==> LowerChar(level[i]) == LowerChar(env.GetOr("INFO")[i])
  {
    Upper(env.GetOr("INFO"))
  }

  /** Upper-casing an already upper-cased level changes nothing. */
  lemma LogLevelIdempotent(env: Option<string>)
    ensures LogLevel(Some(LogLevel(env))) == LogLevel(env)
  {
    var l := LogLevel(env);
    assert forall i :: 0 <= i < |l| ==> UpperChar(l[i]) == l[i];
  }
}
