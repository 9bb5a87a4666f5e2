/** The two name conversions: lower-casing, which keys languages, and snake case, which names linked folders. */
module Names {

  predicate IsUpper(c: char) { 'A' <= c <= 'Z' }

  function LowerChar(c: char): char {
    if IsUpper(c) then (c as int - 'A' as int + 'a' as int) as char else c
  }

  function Lower(s: string): (r: string)
    ensures |r| == |s|
  {
    seq(|s|, i requires 0 <= i < |s| => LowerChar(s[i]))
  }

  /** to_lower_copy overwrites its copy character by character. */
  method ToLowerCopy(value: string) returns (result: string)
    ensures result == Lower(value)
  {
    result := value;
    for i := 0 to |value|
      invariant |result| == |value|
      invariant forall j :: 0 <= j < i ==> result[j] == LowerChar(value[j])
      invariant forall j :: i <= j < |value| ==> result[j] == value[j]
    {
      result := result[i := LowerChar(value[i])];
    }
    assert result == Lower(value);
  }

  /** Upper-case letters move by 32, everything else stays. */
  lemma {:induction false} LowerAt(s: string, i: nat)
    requires i < |s|
    ensures Lower(s)[i] == if 'A' <= s[i] <= 'Z' then (s[i] as int + 32) as char else s[i]
  {
  }

  /** Lower-casing is idempotent, so a key that is already lower case stays itself. */
  lemma {:induction false} LowerIsIdempotent(s: string)
    ensures Lower(Lower(s)) == Lower(s)
  {
  }

  predicate IsSeparator(c: char) { c == '-' || c == ':' || c == '_' }

  /** What one character becomes; `start` says that no underscore belongs before an upper-case letter. */
  function Piece(c: char, start: bool): string {
    if IsSeparator(c) then "_"
    else if IsUpper(c) then (if start then [LowerChar(c)] else ['_', LowerChar(c)])
    else [c]
  }

  /** The snake case of the first `n` characters. */
  function SnakePrefix(name: string, n: nat): string
    requires n <= |name|
  {
    if n == 0 then ""
    else SnakePrefix(name, n - 1) + Piece(name[n - 1], n == 1 || IsSeparator(name[n - 2]))
  }

  function SnakeCase(name: string): string { SnakePrefix(name, |name|) }

  method ToSnakeCase(name: string) returns (result: string)
    ensures result == SnakeCase(name)
  {
    result := "";
    for i := 0 to |name|
      invariant result == SnakePrefix(name, i)
    {
      var c := name[i];
      if IsSeparator(c) {
        result := result + "_";
      } else if IsUpper(c) {
        if i > 0 && !IsSeparator(name[i - 1]) {
          result := result + ['_', LowerChar(c)];
        } else {
          result := result + [LowerChar(c)];
        }
      } else {
        result := result + [c];
      }
    }
  }

  /** Text without upper-case letters and without '-' or ':'. */
  predicate IsSnake(s: string) {
    forall c :: c in s ==> !IsUpper(c) && c != '-' && c != ':'
  }

  lemma {:induction false} SnakePrefixIsSnake(name: string, n: nat)
    requires n <= |name|
    ensures IsSnake(SnakePrefix(name, n))
  {
    if n == 0 {
    } else {
      SnakePrefixIsSnake(name, n - 1);
    }
  }

  lemma {:induction false} SnakePrefixKeepsSnake(name: string, n: nat)
    requires n <= |name| && IsSnake(name[..n])
    ensures SnakePrefix(name, n) == name[..n]
  {
    if n == 0 {
    } else {
      var front := name[..n - 1];
      assert name[..n] == front + [name[n - 1]];
      assert IsSnake(front) by {
        forall c | c in front ensures !IsUpper(c) && c != '-' && c != ':' {
          assert c in name[..n];
        }
      }
      SnakePrefixKeepsSnake(name, n - 1);
      assert name[n - 1] in name[..n];
    }
  }

  lemma {:induction false} SnakePrefixesGrow(name: string, n: nat, m: nat)
    requires n <= m <= |name|
    ensures SnakePrefix(name, n) <= SnakePrefix(name, m)
  {
    if n == m {
    } else {
      SnakePrefixesGrow(name, n, m - 1);
    }
  }

  /**
   Character by character: a separator becomes an underscore; an upper-case letter its lower-case one, after an
   underscore unless it is the first character or follows a separator; anything else stays.
   */
  lemma {:induction false} SnakeCaseAt(name: string, i: nat)
    requires i < |name|
    ensures |SnakePrefix(name, 0)| == 0 && SnakeCase(name) == SnakePrefix(name, |name|)
    ensures var c, at, id := name[i], |SnakePrefix(name, i)|, SnakeCase(name);
            var next := |SnakePrefix(name, i + 1)|;
            && at < next <= |id|
            && if c in {'-', ':', '_'} then next == at + 1 && id[at] == '_'
               else if !('A' <= c <= 'Z') then next == at + 1 && id[at] == c
               else if i == 0 || name[i - 1] in {'-', ':', '_'} then
                 next == at + 1 && id[at] == (c as int + 32) as char
               else next == at + 2 && id[at] == '_' && id[at + 1] == (c as int + 32) as char
  {
    SnakePrefixesGrow(name, i + 1, |name|);
    assert SnakePrefix(name, i + 1) ==
           SnakePrefix(name, i) + Piece(name[i], i == 0 || IsSeparator(name[i - 1]));
  }

  /** Plugin identifiers are snake case, and exactly the snake-case names are their own identifiers. */
  lemma {:induction false} SnakeCaseProperties(name: string)
    ensures IsSnake(SnakeCase(name))
    ensures SnakeCase(SnakeCase(name)) == SnakeCase(name)
    ensures SnakeCase(name) == name <==> IsSnake(name)
  {
    var id := SnakeCase(name);
    SnakePrefixIsSnake(name, |name|);
    assert id[..|id|] == id && name[..|name|] == name;
    SnakePrefixKeepsSnake(id, |id|);
    if IsSnake(name) {
      SnakePrefixKeepsSnake(name, |name|);
    }
  }

  // ---- Key order ----

  /** The order in which a map iterates over its string keys. */
  predicate Less(a: string, b: string) {
    b != [] && (a == [] || a[0] < b[0] || (a[0] == b[0] && Less(a[1..], b[1..])))
  }

  lemma {:induction false} LessIsStrictAndTotal(a: string, b: string)
    ensures a == b ==> !Less(a, b)
    ensures a != b ==> (Less(a, b) <==> !Less(b, a))
  {
    if a == [] || b == [] || a[0] != b[0] {
    } else {
      LessIsStrictAndTotal(a[1..], b[1..]);
      assert a == [a[0]] + a[1..] && b == [b[0]] + b[1..];
    }
  }

  lemma {:induction false} LessIsTransitive(a: string, b: string, c: string)
    requires Less(a, b) && Less(b, c)
    ensures Less(a, c)
  {
    if a == [] || a[0] < c[0] {
    } else {
      LessIsTransitive(a[1..], b[1..], c[1..]);
    }
  }

  /** Keys are ordered by their first difference, and a key comes before its extensions. */
  lemma {:induction false} LessIsLexicographic(common: string, a: string, b: string)
    requires a != "" ==> b == "" || a[0] != b[0]
    ensures Less(common + a, common + b) <==> (a == "" && b != "") || (a != "" && b != "" && a[0] < b[0])
  {
    if common == "" {
      assert common + a == a && common + b == b;
    } else {
      LessIsLexicographic(common[1..], a, b);
      assert (common + a)[1..] == common[1..] + a && (common + b)[1..] == common[1..] + b;
    }
  }

  predicate IsLeast(key: string, keys: set<string>) {
    key in keys && forall other :: other in keys && other != key ==> Less(key, other)
  }

  /** The next key of the iteration. */
  method LeastKey(keys: set<string>) returns (least: string)
    requires keys != {}
    ensures IsLeast(least, keys)
  {
    least :| least in keys;
    var left := keys - {least};
    while left != {}
      invariant left <= keys && least !in left && IsLeast(least, keys - left)
    {
      var key :| key in left;
      LessIsStrictAndTotal(key, least);
      if Less(key, least) {
        forall other | other in keys - left ensures Less(key, other) {
          if other != least {
            LessIsTransitive(key, least, other);
          }
        }
        least := key;
      }
      left := left - {key};
    }
    assert keys - left == keys;
  }
}
