/** The evaluator over a mutable environment, proved to compute exactly what the evaluation function says. */
module ArithConfig {
  import opened Basics
  import opened ArithSyntax
  import opened ArithNumbers
  import opened ArithEval

  class Config {
    var vars: map<string, string>
    var locked: set<string>
    var writable: bool
    const words: Words

    constructor (words: Words, vars: map<string, string>, locked: set<string>, writable: bool)
      ensures this.words == words && State() == Env(vars, locked, writable)
    {
      this.words, this.vars, this.locked, this.writable := words, vars, locked, writable;
    }

    function State(): Env
      reads this
    {
      Env(vars, locked, writable)
    }

    function EnvGet(name: string): (s: string)
      reads this
      ensures s == Get(State(), name)
    {
      if name in vars then vars[name] else ""
    }

    /** envSet with a number's decimal text */
    method EnvSet(name: string, n: int) returns (ok: bool)
      requires Int64(n)
      modifies this`vars
      ensures forall r :: old(Store(State(), name, n, r)) == Out(if ok then Done(r) else Fail(Denied), State())
    {
      ok := writable && name !in locked;
      if ok {
        vars := vars[name := Format(n)];
      }
    }

    /** The loop that follows names to what they hold. */
    method Follow(start: string) returns (str: string)
      ensures str == Deref(State(), start, HOPS)
    {
      str := start;
      var i := 0;
      while ValidName(str)
        invariant 0 <= i <= HOPS
        invariant Deref(State(), start, HOPS) == Deref(State(), str, HOPS - i)
        decreases HOPS + 1 - i
      {
        var val := EnvGet(str);
        if val == "" {
          break;
        }
        i := i + 1;
        if i >= 100 {
          break;
        }
        str := val;
      }
    }

    method Arithm(e: Expr) returns (r: Res)
      modifies this
      ensures Out(r, State()) == Eval(words, e, old(State()))
      decreases e
    {
      hide BinArit, AssgnArit, Deref, Atoi, Finish, Get;
      match e
      case LitE(s) =>
        var str := Follow(s);
        r := Done(Atoi(str));
      case WordE(w) =>
        var t := words(w, State());
        vars, locked, writable := t.env.vars, t.env.locked, t.env.writable;
        if t.text == None {
          return Fail(Expansion);
        }
        var str := Follow(t.text.value);
        r := Done(Atoi(str));
      case Paren(x) =>
        r := Arithm(x);
      case Un(op, post, x) =>
        if IsStep(op) {
          r := Step(op, post, x);
          return;
        }
        r := Arithm(x);
        if r.Done? {
          r := Unary(op, r.v);
        }
      case Bin(op, x, y) =>
        if IsAssign(op) {
          r := Assign(op, x, y);
        } else if op == Quest {
          r := Ternary(x, y);
        } else {
          r := Binary(op, x, y);
        }
    }

    method Step(op: Sym, post: bool, x: Expr) returns (r: Res)
      requires IsStep(op)
      modifies this
      ensures Out(r, State()) == EvalStep(op, post, x, old(State()))
    {
      var name := NameOf(x);
      if name == None {
        return Fail(Crash);
      }
      var before := Atoi(EnvGet(name.value));
      var val := before;
      if op == AddAdd {
        val := Wrap64(val + 1);
      } else {
        val := Wrap64(val - 1);
      }
      var ok := EnvSet(name.value, val);
      if !ok {
        r := Fail(Denied);
      } else if post {
        r := Done(before);
      } else {
        r := Done(val);
      }
    }

    method Ternary(x: Expr, y: Expr) returns (r: Res)
      modifies this
      ensures Out(r, State()) == Eval(words, Bin(Quest, x, y), old(State()))
      decreases Bin(Quest, x, y), 0
    {
      hide BinArit, AssgnArit, Unary, Deref, Atoi, Finish, EvalStep, Get;
      r := Arithm(x);
      if r.Fail? {
        return;
      }
      if !y.Bin? {
        r := Fail(Crash);
      } else if r.v == 1 {
        r := Arithm(y.left);
      } else {
        r := Arithm(y.right);
      }
    }

    method Binary(op: Sym, x: Expr, y: Expr) returns (r: Res)
      requires !IsAssign(op) && op != Quest
      modifies this
      ensures Out(r, State()) == Eval(words, Bin(op, x, y), old(State()))
      decreases Bin(op, x, y), 0
    {
      hide Eval, BinArit;
      EvalBinary(words, op, x, y, State());
      var left := Arithm(x);
      if left.Fail? {
        return left;
      }
      var right := Arithm(y);
      if right.Fail? {
        return right;
      }
      r := BinOp(op, left.v, right.v);
    }

    /** binArit, with exponentiation by repeated squaring */
    method BinOp(op: Sym, x: int, y: int) returns (r: Res)
      requires Int64(x) && Int64(y)
      ensures r == BinArit(op, x, y)
    {
      if op == Power {
        var p := IntPow(x, y);
        r := Done(p);
      } else {
        r := BinArit(op, x, y);
      }
    }

    /** assgnArit: the variable is read before the right-hand side is evaluated. */
    method Assign(op: Sym, x: Expr, y: Expr) returns (r: Res)
      requires IsAssign(op)
      modifies this
      ensures Out(r, State()) == Eval(words, Bin(op, x, y), old(State()))
      decreases Bin(op, x, y), 0
    {
      hide Eval, AssgnArit, BinArit, Atoi, Store, Get, NameOf;
      EvalAssignment(words, op, x, y, State());
      var name := NameOf(x);
      if name == None {
        return Fail(Crash);
      }
      var val := Atoi(EnvGet(name.value));
      r := Arithm(y);
      if r.Fail? {
        return;
      }
      r := AssgnArit(op, val, r.v);
      if r.Fail? {
        return;
      }
      var ok := EnvSet(name.value, r.v);
      if !ok {
        r := Fail(Denied);
      }
    }
  }
}
