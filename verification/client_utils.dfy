/**
 * The client's `getInitials` (utils.ts): JavaScript `split` on one
 * character, and the two-letter initials taken from the first and last
 * parts of a display name or of the user part of an e-mail address.
 */
module ClientUtils {
  import opened Wrappers

  /** `s.indexOf(c)`: the first position of `c`, or -1. */
  function IndexOf(s: string, c: char): (r: int)
    ensures -1 <= r < |s|
    ensures r == -1 ==> forall j :: 0 <= j < |s| ==> s[j] != c
    ensures r >= 0 ==> s[r] == c && forall j :: 0 <= j < r ==> s[j] != c
  {
    if |s| == 0 then -1
    else if s[0] == c then 0
    else
      var r := IndexOf(s[1..], c);
      assert forall j :: 0 < j < |s| ==> s[j] == s[1..][j - 1];
      if r == -1 then -1 else r + 1
  }

  /** `s.lastIndexOf(c)`: the last position of `c`, or -1. */
  function LastIndexOf(s: string, c: char): (r: int)
    ensures -1 <= r < |s|
    ensures r == -1 ==> forall j :: 0 <= j < |s| ==> s[j] != c
    ensures r >= 0 ==> s[r] == c && forall j :: r < j < |s| ==> s[j] != c
  {
    if |s| == 0 then -1
    else if s[|s| - 1] == c then |s| - 1
    else
      var r := LastIndexOf(s[..|s| - 1], c);
      assert forall j :: 0 <= j < |s| - 1 ==> s[j] == s[..|s| - 1][j];
      r
  }

  /**
   * `s.split(c)` for a one-character separator: the pieces between separators, always
   * at least one. Read from the front: a separator starts a new empty piece, any other
   * character is prepended to the first piece of the rest.
   */
  function Split(s: string, c: char): (parts: seq<string>)
    ensures |parts| >= 1
  {
    if |s| == 0 then [""]
    else
      var rest := Split(s[1..], c);
      if s[0] == c then [""] + rest else [[s[0]] + rest[0]] + rest[1..]
  }

  /** `parts.join(c)`. */
  function Join(parts: seq<string>, c: char): string
    requires |parts| >= 1
  {
    if |parts| == 1 then parts[0] else parts[0] + [c] + Join(parts[1..], c)
  }

  function Last(parts: seq<string>): string
    requires |parts| >= 1
  {
    parts[|parts| - 1]
  }

  /** Splitting and joining with the same separator gives the string back. */
  lemma {:induction false} SplitJoin(s: string, c: char)
    ensures Join(Split(s, c), c) == s
  {
    if |s| > 0 {
      var rest := Split(s[1..], c);
      SplitJoin(s[1..], c);
      if s[0] == c {
        assert Split(s, c)[1..] == rest;
      } else if |rest| > 1 {
        assert Split(s, c)[1..] == rest[1..];
        assert Join(rest, c) == rest[0] + [c] + Join(rest[1..], c);
      }
    }
  }

  /** No part contains the separator. */
  lemma {:induction false} SplitPartsFree(s: string, c: char)
    ensures forall i :: 0 <= i < |Split(s, c)| ==> c !in Split(s, c)[i]
  {
    if |s| > 0 {
      SplitPartsFree(s[1..], c);
      var rest := Split(s[1..], c);
      if s[0] != c {
        assert c !in rest[0];
      }
    }
  }

  /** The first part is the text before the first separator, or the whole string when there is none. */
  lemma {:induction false} SplitFirst(s: string, c: char)
    ensures Split(s, c)[0] == if IndexOf(s, c) == -1 then s else s[..IndexOf(s, c)]
  {
    if |s| > 0 {
      SplitFirst(s[1..], c);
      if s[0] != c {
        var i := IndexOf(s[1..], c);
        if i == -1 {
          ConsSplit(s);
        } else {
          assert [s[0]] + s[1..][..i] == s[..i + 1];
        }
      }
    }
  }

  lemma ConsSplit(s: string)
    requires |s| > 0
    ensures [s[0]] + s[1..] == s
  {
  }

  lemma DropTwice(s: string, a: nat, b: nat)
    requires a <= |s| && b <= |s| - a
    ensures s[a..][b..] == s[a + b..]
  {
  }

  /** The last occurrence is the one occurrence with none after it. */
  lemma {:induction false} LastIndexOfUnique(s: string, c: char, j: int)
    requires 0 <= j < |s| && s[j] == c && forall k :: j < k < |s| ==> s[k] != c
    ensures LastIndexOf(s, c) == j
  {
    if j < |s| - 1 {
      var p := s[..|s| - 1];
      assert p[j] == c;
      LastIndexOfUnique(p, c, j);
    }
  }

  /** The last occurrence in a string, from the last occurrence in its tail. */
  lemma LastIndexOfTail(s: string, c: char)
    requires |s| > 0
    ensures LastIndexOf(s, c) ==
              if LastIndexOf(s[1..], c) >= 0 then LastIndexOf(s[1..], c) + 1
              else if s[0] == c then 0 else -1
  {
    var l := LastIndexOf(s[1..], c);
    if l >= 0 {
      assert s[l + 1] == c;
      LastIndexOfUnique(s, c, l + 1);
    } else if s[0] == c {
      LastIndexOfUnique(s, c, 0);
    } else {
      assert forall j :: 0 <= j < |s| ==> s[j] != c;
    }
  }

  /** There is more than one part exactly when the separator occurs. */
  lemma {:induction false} SplitCount(s: string, c: char)
    ensures |Split(s, c)| == 1 <==> LastIndexOf(s, c) == -1
  {
    if |s| > 0 {
      SplitCount(s[1..], c);
      LastIndexOfTail(s, c);
    }
  }

  lemma SplitLastStep(s: string, c: char)
    requires |s| > 0
    ensures Last(Split(s, c)) ==
              if s[0] == c || |Split(s[1..], c)| > 1 then Last(Split(s[1..], c))
              else [s[0]] + Last(Split(s[1..], c))
  {
  }

  lemma SplitLastEmpty(s: string, c: char)
    requires |s| == 0
    ensures Last(Split(s, c)) == s[LastIndexOf(s, c) + 1..]
  {
    assert Split(s, c) == [""];
    assert LastIndexOf(s, c) == -1;
    assert s[0..] == "";
  }

  /** The last part is the text after the last separator, or the whole string when there is none. */
  lemma {:induction false} SplitLast(s: string, c: char)
    ensures Last(Split(s, c)) == s[LastIndexOf(s, c) + 1..]
  {
    if |s| == 0 {
      SplitLastEmpty(s, c);
    } else {
      SplitLast(s[1..], c);
      SplitCount(s[1..], c);
      LastIndexOfTail(s, c);
      SplitLastStep(s, c);
      var l := LastIndexOf(s[1..], c);
      if l >= 0 {
        DropTwice(s, 1, l + 1);
      } else if s[0] != c {
        ConsSplit(s);
      }
    }
  }

  /**
   * `toUpperCase` on a one-character string. ASCII is mapped here; any other character
   * goes through `upperOther`, the Unicode case table (which may lengthen it: 'ß' gives "SS").
   */
  function ToUpper(ch: char, upperOther: char -> string): (r: string)
    ensures 'a' <= ch <= 'z' ==> |r| == 1 && 'A' <= r[0] <= 'Z' && r[0] as int - 'A' as int == ch as int - 'a' as int
    ensures ch < 128 as char && !('a' <= ch <= 'z') ==> r == [ch]
    ensures ch >= 128 as char ==> r == upperOther(ch)
  {
    if 'a' <= ch <= 'z' then [(ch as int - 'a' as int + 'A' as int) as char]
    else if ch < 128 as char then [ch]
    else upperOther(ch)
  }

  /** Indexing an empty string gives undefined, and upper-casing that throws. */
  datatype InitialsError = TypeError

  /**
   * The initials template: the first character of the first part and of the last part,
   * each upper-cased, concatenated.
   */
  function InitialsOf(parts: seq<string>, upperOther: char -> string): (r: Result<string, InitialsError>)
    requires |parts| >= 1
    ensures r.Success? <==> |parts[0]| > 0 && |parts[|parts| - 1]| > 0
    ensures r.Success? ==> r.value == ToUpper(parts[0][0], upperOther) + ToUpper(parts[|parts| - 1][0], upperOther)
    ensures r.Success? && parts[0][0] < 128 as char && parts[|parts| - 1][0] < 128 as char ==>
              |r.value| == 2 && !('a' <= r.value[0] <= 'z') && !('a' <= r.value[1] <= 'z')
  {
    if |parts[0]| == 0 || |parts[|parts| - 1]| == 0 then Failure(TypeError)
    else Success(ToUpper(parts[0][0], upperOther) + ToUpper(parts[|parts| - 1][0], upperOther))
  }

  /** `getInitialsFromEmail`: initials from the text before the first '@', split on '.'. */
  function GetInitialsFromEmail(email: string, upperOther: char -> string): Result<string, InitialsError> {
    var username := Split(email, '@')[0];
    InitialsOf(Split(username, '.'), upperOther)
  }

  /** `getInitials`: a name containing '@' is treated as an e-mail address, any other is split on spaces. */
  function GetInitials(name: string, upperOther: char -> string): Result<string, InitialsError> {
    var isEmail := IndexOf(name, '@') != -1;
    if isEmail then GetInitialsFromEmail(name, upperOther)
    else InitialsOf(Split(name, ' '), upperOther)
  }

  /** Initials of a string split on `c`: its first character and the one after its last `c`. */
  lemma InitialsOfSplit(s: string, c: char, upperOther: char -> string)
    ensures var r := InitialsOf(Split(s, c), upperOther);
            && (r.Success? <==> |s| > 0 && s[0] != c && s[|s| - 1] != c)
            && (r.Success? ==> r.value == ToUpper(s[0], upperOther) + ToUpper(s[LastIndexOf(s, c) + 1], upperOther))
  {
    SplitFirst(s, c);
    SplitLast(s, c);
    var parts := Split(s, c);
    var i, l := IndexOf(s, c), LastIndexOf(s, c);
    if i == -1 {
      assert l == -1;
      assert parts[0] == s && Last(parts) == s;
    } else {
      assert l >= i;
      assert |parts[0]| == 0 <==> s[0] == c;
      assert |Last(parts)| == 0 <==> s[|s| - 1] == c;
      if |parts[0]| > 0 {
        assert parts[0][0] == s[0];
      }
      if |Last(parts)| > 0 {
        assert Last(parts)[0] == s[l + 1];
      }
    }
  }

  /**
   * A display name (no '@'): initials are the upper-cased first character and the one after
   * the last space; a leading or trailing space, or an empty name, throws.
   */
  lemma NameInitials(name: string, upperOther: char -> string)
    requires '@' !in name
    ensures var r := GetInitials(name, upperOther);
            && (r.Success? <==> |name| > 0 && name[0] != ' ' && name[|name| - 1] != ' ')
            && (r.Success? ==> r.value == ToUpper(name[0], upperOther) + ToUpper(name[LastIndexOf(name, ' ') + 1], upperOther))
  {
    InitialsOfSplit(name, ' ', upperOther);
  }

  /** A single word gives the same initial twice. */
  lemma SingleWordRepeatsInitial(name: string, upperOther: char -> string)
    requires '@' !in name && ' ' !in name && |name| > 0
    ensures GetInitials(name, upperOther) == Success(ToUpper(name[0], upperOther) + ToUpper(name[0], upperOther))
  {
    NameInitials(name, upperOther);
  }

  /**
   * An e-mail address: initials come from the user part before the first '@', split on
   * '.', first and last segments; an empty user part or a leading or trailing '.' throws.
   */
  lemma EmailInitials(name: string, upperOther: char -> string)
    requires '@' in name
    ensures var user := name[..IndexOf(name, '@')];
            var r := GetInitials(name, upperOther);
            && (r.Success? <==> |user| > 0 && user[0] != '.' && user[|user| - 1] != '.')
            && (r.Success? ==> r.value == ToUpper(user[0], upperOther) + ToUpper(user[LastIndexOf(user, '.') + 1], upperOther))
  {
    SplitFirst(name, '@');
    InitialsOfSplit(name[..IndexOf(name, '@')], '.', upperOther);
  }
}
