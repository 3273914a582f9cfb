/** Address expressions: hexadecimal and decimal literals, symbols and modules, sums, and dereferences
    in brackets. */
module ExpressionParser {
  import opened Text

  datatype Module = Module(name: string, base: U64)

  /** What a parser may consult: an open process (its modules, and the eight-byte value readable at
      each address where a whole read succeeds) and a symbol table. */
  datatype Env = Env(hasProc: bool, modules: seq<Module>, memory: map<U64, U64>, symbols: map<string, U64>)

  /** An eight-byte read from the process, if there is one. */
  function Deref(env: Env, a: U64): Option<U64> {
    if env.hasProc && a in env.memory then Some(env.memory[a]) else None
  }

  const MAX_DEPTH: nat := 64

  // ----- tokens -----

  function HexOrZero(s: string): U64 {
    var r := Stoull(s, 16);
    if r.Some? then r.value.value else 0
  }

  function ModuleBase(mods: seq<Module>, name: string): Option<U64> {
    if mods == [] then None
    else if mods[0].name == name then Some(mods[0].base)
    else ModuleBase(mods[1..], name)
  }

  function Modules(env: Env): seq<Module> {
    if env.hasProc then env.modules else []
  }

  function Lookup(env: Env, name: string): U64 {
    if name in env.symbols then env.symbols[name] else 0
  }

  /** A name: symbols first, then modules, then a lone hexadecimal letter. */
  function ResolveName(env: Env, token: string): U64 {
    if Lookup(env, token) != 0 then Lookup(env, token)
    else
      var m := ModuleBase(Modules(env), token);
      if m.Some? then m.value
      else if IsNumeral(token, 16) then HexOrZero(token) else 0
  }

  function ResolveToken(env: Env, token: string): U64 {
    if token == [] then 0
    else if |token| > 2 && token[0] == '0' && (token[1] == 'x' || token[1] == 'X') then HexOrZero(token[2..])
    else if token[0] == '#' then
      (if |token| < 2 || Stoull(token[1..], 10).None? then 0 else Stoull(token[1..], 10).value.value)
    else if IsNumeral(token, 16) && (|token| >= 2 || IsNumeral(token, 10)) then HexOrZero(token)
    else ResolveName(env, token)
  }

  // ----- brackets and operators -----

  /** Scanning from `i` at nesting depth `d`, where the depth first returns to zero. */
  function MatchClose(s: string, i: nat, d: int): (r: Option<nat>)
    ensures r.Some? ==> i <= r.value < |s| && s[r.value] == ']'
    decreases |s| - i
  {
    if i >= |s| then None
    else if s[i] == '[' then MatchClose(s, i + 1, d + 1)
    else if s[i] == ']' then (if d == 1 then Some(i) else MatchClose(s, i + 1, d - 1))
    else MatchClose(s, i + 1, d)
  }

  predicate IsOperator(c: char) {
    c == '+' || c == '-'
  }

  /** The longest module name that stands at `pos` as a whole term. */
  function ModuleLength(mods: seq<Module>, s: string, pos: nat, best: nat): (n: nat)
    requires pos + best <= |s|
    ensures best <= n && pos + n <= |s|
    ensures n == best || pos + n == |s| || IsOperator(s[pos + n])
  {
    if mods == [] then best
    else
      var name := mods[0].name;
      var whole := name != [] && |name| > best && At(s, name, pos)
                   && (pos + |name| >= |s| || IsOperator(s[pos + |name|]));
      ModuleLength(mods[1..], s, pos, if whole then |name| else best)
  }

  /** The next operator outside brackets that does not follow an 'x'. */
  function ScanOperator(s: string, i: nat, bd: nat): (r: Option<nat>)
    ensures r.Some? ==> i <= r.value < |s|
    decreases |s| - i
  {
    if i >= |s| then None
    else if s[i] == '[' then ScanOperator(s, i + 1, bd + 1)
    else if s[i] == ']' then ScanOperator(s, i + 1, if bd > 0 then bd - 1 else 0)
    else if bd == 0 && IsOperator(s[i]) && !(i > 1 && (s[i - 1] == 'x' || s[i - 1] == 'X')) then Some(i)
    else ScanOperator(s, i + 1, bd)
  }

  /** Where the term starting at `pos` ends, or None when it is the last. */
  function NextOperator(mods: seq<Module>, s: string, pos: nat): (r: Option<nat>)
    requires pos < |s|
    ensures r.Some? ==> pos < r.value < |s|
  {
    var m := ModuleLength(mods, s, pos, 0);
    if m > 0 then (if pos + m < |s| then Some(pos + m) else None)
    else ScanOperator(s, pos + 1, if s[pos] == '[' then 1 else 0)
  }

  // ----- expressions -----

  function TermEnd(mods: seq<Module>, s: string, pos: nat): (end: nat)
    requires pos < |s|
    ensures pos < end <= |s|
  {
    var next := NextOperator(mods, s, pos);
    if next.Some? then next.value else |s|
  }

  function Combine(result: U64, subtract: bool, val: U64): U64 {
    if subtract then Wrap((result as int) - val) else Wrap((result as int) + val)
  }

  /** A term with a bracket is an expression of its own, one level deeper; a failure counts as 0. */
  function TermValue(env: Env, token: string, depth: nat): U64
    requires depth <= MAX_DEPTH
    decreases MAX_DEPTH - depth, 0, 0
  {
    if '[' !in token then ResolveToken(env, token)
    else if depth + 1 > MAX_DEPTH then 0
    else
      var sub := ParseAt(env, token, depth + 1);
      if sub.Some? then sub.value else 0
  }

  /** The sum of the terms from `pos` on, added to `result`. */
  function Terms(env: Env, s: string, pos: nat, result: U64, subtract: bool, depth: nat): U64
    requires pos <= |s| && depth <= MAX_DEPTH
    decreases MAX_DEPTH - depth, 1, |s| - pos
  {
    if pos >= |s| then result
    else
      var end := TermEnd(Modules(env), s, pos);
      var token := Trim(s[pos..end]);
      var result' := if token == [] then result else Combine(result, subtract, TermValue(env, token, depth));
      if end >= |s| then result'
      else Terms(env, s, end + 1, result', s[end] == '-', depth)
  }

  /** `ptr` moved by what follows the bracket. */
  function Displace(env: Env, ptr: U64, rest: string, depth: nat): Option<U64>
    requires depth <= MAX_DEPTH
    decreases MAX_DEPTH - depth, 1, 0
  {
    if rest == [] || !IsOperator(rest[0]) then Some(ptr)
    else if depth + 1 > MAX_DEPTH then None
    else
      var off := ParseAt(env, rest[1..], depth + 1);
      if off.None? then None
      else Some(Combine(ptr, rest[0] == '-', off.value))
  }

  /** An expression at nesting depth at most the cap; anything deeper fails. */
  function ParseAt(env: Env, expr: string, depth: nat): Option<U64>
    requires depth <= MAX_DEPTH
    decreases MAX_DEPTH - depth, 2, 0
  {
    var s := Trim(expr);
    if s == [] then None
    else if s[0] == '[' then
      var close := MatchClose(s, 0, 0);
      if close.None? || depth + 1 > MAX_DEPTH then None
      else
        var inner := ParseAt(env, s[1..close.value], depth + 1);
        var ptr := if inner.None? then None else Deref(env, inner.value);
        if ptr.None? then None else Displace(env, ptr.value, Trim(s[close.value + 1..]), depth)
    else Some(Terms(env, s, 0, 0, false, depth))
  }

  function Parse(env: Env, expr: string): Option<U64> {
    ParseAt(env, expr, 0)
  }

  // ----- the parser as code -----

  method FindMatchingBracket(s: string) returns (close: Option<nat>)
    ensures close == MatchClose(s, 0, 0)
  {
    var i, d := 0, 0;
    while i < |s|
      invariant i <= |s|
      invariant MatchClose(s, i, d) == MatchClose(s, 0, 0)
    {
      if s[i] == '[' {
        d := d + 1;
      } else if s[i] == ']' {
        d := d - 1;
        if d == 0 {
          return Some(i);
        }
      }
      i := i + 1;
    }
    close := None;
  }

  method FindModuleLength(mods: seq<Module>, s: string, pos: nat) returns (modLen: nat)
    requires pos < |s|
    ensures modLen == ModuleLength(mods, s, pos, 0)
  {
    modLen := 0;
    var k := 0;
    while k < |mods|
      invariant k <= |mods| && pos + modLen <= |s|
      invariant ModuleLength(mods[k..], s, pos, modLen) == ModuleLength(mods, s, pos, 0)
    {
      var name := mods[k].name;
      if name != [] && |name| > modLen && At(s, name, pos) {
        var after := pos + |name|;
        if after >= |s| || s[after] == '+' || s[after] == '-' {
          modLen := |name|;
        }
      }
      k := k + 1;
    }
  }

  method FindNextOperator(mods: seq<Module>, s: string, pos: nat) returns (next: Option<nat>)
    requires pos < |s|
    ensures next == NextOperator(mods, s, pos)
  {
    hide ModuleLength;
    var modLen := FindModuleLength(mods, s, pos);
    if modLen > 0 {
      return if pos + modLen < |s| then Some(pos + modLen) else None;
    }
    var bd := if s[pos] == '[' then 1 else 0;
    var i := pos + 1;
    while i < |s|
      invariant pos < i <= |s| && 0 <= bd
      invariant ScanOperator(s, i, bd) == NextOperator(mods, s, pos)
    {
      if s[i] == '[' {
        bd := bd + 1;
      } else if s[i] == ']' {
        if bd > 0 {
          bd := bd - 1;
        }
      } else if bd == 0 && (s[i] == '+' || s[i] == '-') && !(i > 1 && (s[i - 1] == 'x' || s[i - 1] == 'X')) {
        return Some(i);
      }
      i := i + 1;
    }
    next := None;
  }

  method SumTerms(env: Env, s: string, depth: nat) returns (result: U64)
    requires depth <= MAX_DEPTH
    ensures result == Terms(env, s, 0, 0, false, depth)
    decreases MAX_DEPTH + 1 - depth, 0
  {
    hide ResolveToken, Trim, NextOperator, ParseAt, Wrap;
    result := 0;
    var subtract := false;
    var pos := 0;
    var mods := if env.hasProc then env.modules else [];
    while pos < |s|
      invariant pos <= |s|
      invariant Terms(env, s, pos, result, subtract, depth) == Terms(env, s, 0, 0, false, depth)
    {
      var nextOp := FindNextOperator(mods, s, pos);
      var end := if nextOp.None? then |s| else nextOp.value;
      var token := Trim(s[pos..end]);
      pos := end;
      if token != [] {
        var val := 0;
        if '[' in token {
          var sub := ParseImpl(env, token, depth + 1);
          val := if sub.Some? then sub.value else 0;
        } else {
          val := ResolveToken(env, token);
        }
        result := if subtract then Wrap((result as int) - val) else Wrap((result as int) + val);
      }
      if pos < |s| {
        subtract := s[pos] == '-';
        pos := pos + 1;
      }
    }
  }

  method ParseImpl(env: Env, expr: string, depth: nat) returns (r: Option<U64>)
    requires depth <= MAX_DEPTH + 1
    ensures r == if depth > MAX_DEPTH then None else ParseAt(env, expr, depth)
    decreases MAX_DEPTH + 1 - depth, 1
  {
    hide Trim, MatchClose, Terms;
    if depth > MAX_DEPTH {
      return None;
    }
    var s := Trim(expr);
    if s == [] {
      return None;
    }
    if s[0] != '[' {
      var sum := SumTerms(env, s, depth);
      return Some(sum);
    }
    var close := FindMatchingBracket(s);
    if close.None? {
      return None;
    }
    var inner := ParseImpl(env, s[1..close.value], depth + 1);
    if inner.None? || !env.hasProc {
      return None;
    }
    var ptr := Deref(env, inner.value);
    if ptr.None? {
      return None;
    }
    var rest := Trim(s[close.value + 1..]);
    if rest == [] {
      return ptr;
    }
    if rest[0] == '+' || rest[0] == '-' {
      var off := ParseImpl(env, rest[1..], depth + 1);
      if off.None? {
        return None;
      }
      return Some(if rest[0] == '+' then Wrap((ptr.value as int) + off.value) else Wrap((ptr.value as int) - off.value));
    }
    r := ptr;
  }
}
