/** That there are machines with their builtins in place, so that what is shown of them is of something. */
module Startup {
  import opened Words
  import opened Machine

  function FirstToken(b: Builtin): Token {
    match b
    case TWO_DUP => Thunk(1)
    case ZERO_EQUALS => Thunk(5)
    case LOOP_INC => Thunk(10)
    case _ => Native(b)
  }

  function WithId(id: int): Builtin {
    match id
    case 7 => AND case 28 => DEPTH case 33 => DROP case 34 => DUP case 38 => EQUALS case 40 => EXECUTE
    case 41 => EXIT case 52 => INVERT case 53 => J case 58 => LESS_THAN case 61 => LSHIFT case 65 => MINUS
    case 68 => NEGATE case 74 => OR case 75 => OVER case 77 => PLUS case 83 => R_FETCH case 84 => R_FROM
    case 88 => ROT case 89 => RSHIFT case 100 => STAR case 105 => SWAP case 111 => TO_R case 113 => TWO_DUP
    case 122 => U_LESS_THAN case 125 => UNLOOP case 130 => XOR case 131 => ZERO_EQUALS case 134 => BRANCH
    case 135 => BRANCH0 case 137 => LIT_CELL case 140 => LIT_STR case 141 => LOOP_INC case 143 => SENTINEL
    case 173 => TUCK case 174 => TWO_R_FETCH case 175 => TWO_R_FROM case 176 => TWO_TO_R case 183 => THROW
    case _ => SENTINEL
  }

  lemma IdIsOwn(b: Builtin)
    ensures WithId(Id(b)) == b
  {
    match b
    case AND => case DEPTH => case DROP => case DUP => case EQUALS => case EXECUTE => case EXIT =>
    case INVERT => case J => case LESS_THAN => case LSHIFT => case MINUS => case NEGATE => case OR =>
    case OVER => case PLUS => case R_FETCH => case R_FROM => case ROT => case RSHIFT => case STAR =>
    case SWAP => case TO_R => case TWO_DUP => case U_LESS_THAN => case UNLOOP => case XOR =>
    case ZERO_EQUALS => case BRANCH => case BRANCH0 => case LIT_CELL => case LIT_STR => case LOOP_INC =>
    case SENTINEL => case TUCK => case TWO_R_FETCH => case TWO_R_FROM => case TWO_TO_R => case THROW =>
  }

  lemma IdsDiffer(b: Builtin, c: Builtin)
    ensures Xt(b) == Xt(c) ==> b == c
  {
    hide Id, WithId;
    IdIsOwn(b);
    IdIsOwn(c);
  }

  ghost function TokenAt(xt: int): Token {
    if b: Builtin :| Xt(b) == xt then FirstToken(b) else Variable
  }

  lemma FirstTokens() returns (tokens: map<int, Token>)
    ensures forall b: Builtin :: Xt(b) in tokens && tokens[Xt(b)] == FirstToken(b)
  {
    hide FirstToken;
    tokens := map xt | BUILTIN_XT <= xt < BUILTIN_XT + 400 :: TokenAt(xt);
    forall b: Builtin
      ensures Xt(b) in tokens && tokens[Xt(b)] == FirstToken(b)
    {
      TokenAtIs(b);
    }
  }

  lemma TokenAtIs(b: Builtin)
    ensures TokenAt(Xt(b)) == FirstToken(b) && BUILTIN_XT <= Xt(b) < BUILTIN_XT + 400
  {
    hide FirstToken;
    forall c: Builtin
      ensures Xt(c) == Xt(b) ==> c == b
    {
      IdsDiffer(c, b);
    }
  }

  lemma FirstMemory() returns (mem: seq<int>)
    ensures |mem| < MODULUS
    ensures Holds(mem, 1, Table(TWO_DUP)) && Holds(mem, 5, Table(ZERO_EQUALS)) && Holds(mem, 10, Table(LOOP_INC))
  {
    hide Xt;
    WidthFacts();
    var a, b, c := Table(TWO_DUP), Table(ZERO_EQUALS), Table(LOOP_INC);
    mem := [0] + a + b + c;
    assert mem[1..5] == a && mem[5..10] == b && mem[10..32] == c;
  }

  /** A machine with its builtins in place, their tables at the start of memory. */
  lemma BuiltinsExist() returns (w: World)
    ensures Builtins(w)
  {
    hide Xt, Holds, Table;
    var tokens := FirstTokens();
    var mem := FirstMemory();
    w := World(tokens, mem, 64, 64);
  }
}
