/**
 Printing nested names as the Itanium C++ ABI mangles them, and the proof that
 parsing what is printed gives the names back and leaves the rest alone.
 */
module ItaniumPrinter {
  import opened ItaniumText
  import opened ItaniumParser

  /** What a name consists of besides template arguments: an identifier, or a constructor or destructor. */
  datatype Base = Ident(s: string) | Structor(c: char, k: char)

  datatype Name = Plain(base: Base) | Template(base: Base, args: seq<Arg>)

  /** In front of the names: a substitution, and qualifiers. */
  datatype Prefix = Prefix(sub: Option<string>, qualifiers: string)

  /** A template argument: the letter of a type or of a qualifier, a substitution, a pack of arguments, a name, or a nested name. */
  datatype Arg =
    | Letter(c: char)
    | Substitution(id: string)
    | Pack(args: seq<Arg>)
    | Named(ident: string)
    | NamedTemplate(ident: string, args: seq<Arg>)
    | Nested(prefix: Prefix, names: seq<Name>, op: string)

  predicate IdentOk(s: string) { s != "" && !IsDigit(s[0]) && OneLine(s) }

  predicate StructorOk(c: char, k: char) { (c == 'C' || c == 'D') && '1' <= k <= '3' }

  predicate BaseOk(b: Base) {
    match b
    case Ident(s) => IdentOk(s)
    case Structor(c, k) => StructorOk(c, k)
  }

  /** Letters that are not the start of anything else. */
  predicate LetterOk(c: char) { c !in "INLXES\n" && !IsDigit(c) }

  predicate SeqIdOk(id: string) { forall i :: 0 <= i < |id| ==> IsSeqId(id[i]) }

  predicate PrefixOk(p: Prefix) {
    (p.sub.Some? ==> SeqIdOk(p.sub.value)) && forall i :: 0 <= i < |p.qualifiers| ==> IsQualifier(p.qualifiers[i])
  }

  /** An operator, which can only come last, because it is read up to the next E; "" stands for none. */
  predicate OperatorOk(op: string, first: bool) {
    op != "" ==>
      && OneLine(op) && (forall i :: 0 <= i < |op| ==> op[i] != 'E') && !IsDigit(op[0]) && op[0] != 'I'
      && !(|op| >= 2 && StructorOk(op[0], op[1]))
      && (first ==> !IsQualifier(op[0]) && op[0] != 'S')
  }

  predicate NameOk(n: Name)
    decreases n, 1
  {
    BaseOk(n.base) && (n.Template? ==> ArgsOk(n.args))
  }

  predicate ArgsOk(as_: seq<Arg>)
    decreases as_, 0
  {
    forall i :: 0 <= i < |as_| ==> ArgOk(as_[i])
  }

  predicate NamesOk(ns: seq<Name>)
    decreases ns, 0
  {
    forall i :: 0 <= i < |ns| ==> NameOk(ns[i])
  }

  predicate ArgOk(a: Arg)
    decreases a, 1
  {
    match a
    case Letter(c) => LetterOk(c)
    case Substitution(id) => SeqIdOk(id)
    case Pack(as_) => ArgsOk(as_)
    case Named(s) => IdentOk(s)
    case NamedTemplate(s, as_) => IdentOk(s) && ArgsOk(as_)
    case Nested(p, ns, op) => PrefixOk(p) && NamesOk(ns) && OperatorOk(op, ns == [])
  }

  function PrintIdent(s: string): string { Decimal(|s|) + s }

  function PrintBase(b: Base): string {
    match b
    case Ident(s) => PrintIdent(s)
    case Structor(c, k) => [c, k]
  }

  function PrintSubstitution(id: string): string { "S" + id + "_" }

  function PrintPrefix(p: Prefix): string {
    (if p.sub.Some? then PrintSubstitution(p.sub.value) else "") + p.qualifiers
  }

  function PrintName(n: Name): string
    decreases n, 1
  {
    if n.Plain? then PrintBase(n.base) else PrintBase(n.base) + "I" + PrintArgs(n.args) + "E"
  }

  function PrintArg(a: Arg): string
    decreases a, 1
  {
    match a
    case Letter(c) => [c]
    case Substitution(id) => PrintSubstitution(id)
    case Pack(as_) => "I" + PrintArgs(as_) + "E"
    case Named(s) => PrintIdent(s)
    case NamedTemplate(s, as_) => PrintIdent(s) + "I" + PrintArgs(as_) + "E"
    case Nested(p, ns, op) => "N" + PrintPrefix(p) + (PrintNames(ns) + op) + "E"
  }

  function PrintArgs(as_: seq<Arg>): string
    decreases as_, 0
  {
    if as_ == [] then "" else PrintArg(as_[0]) + PrintArgs(as_[1..])
  }

  function PrintNames(ns: seq<Name>): string
    decreases ns, 0
  {
    if ns == [] then "" else PrintName(ns[0]) + PrintNames(ns[1..])
  }

  /** What parsing gives: names as printed, and whether they have template arguments. */
  function NamesOf(ns: seq<Name>, op: string): Names {
    if ns == [] then if op == "" then [] else [(op, false)]
    else [(PrintBase(ns[0].base), ns[0].Template?)] + NamesOf(ns[1..], op)
  }

  // ---------- A name at the start of a text ----------

  /** The length of an identifier is all digits, and what is taken is the identifier. */
  lemma MatchIdent(s: string, more: string)
    requires IdentOk(s) && OneLine(more)
    ensures MatchRun(PrintIdent(s) + more, IsDigit, 1) == Some((Decimal(|s|), s + more))
    ensures IntOf(Decimal(|s|)) == |s| && Drop(s + more, |s|) == more && Take(s + more, |s|) == s
  {
    var d := Decimal(|s|);
    assert PrintIdent(s) + more == d + (s + more);
    assert (s + more)[0] == s[0];
    MatchRunIs(d, s + more, IsDigit, 1);
    WholeLine(s + more);
    IntOfDecimal(|s|);
  }

  lemma ParseStructor(c: char, k: char, more: string)
    requires StructorOk(c, k) && OneLine(more) && more != ""
    ensures ParseName([c, k] + more) == Some(([c, k], more))
  {
    var t := [c, k] + more;
    assert t[0] == c && t[1] == k && t[2] == more[0] && t[..2] == [c, k] && t[2..] == more;
    NoNumber(t);
    WholeLine(more);
    hide MatchRun;
  }

  lemma ParseBase(b: Base, more: string)
    requires BaseOk(b) && OneLine(more) && more != ""
    ensures ParseName(PrintBase(b) + more) == Some((PrintBase(b), more))
  {
    match b
    case Ident(s) => MatchIdent(s, more);
    case Structor(c, k) => ParseStructor(c, k, more);
  }

  /** An operator is read up to the next E. */
  lemma ParseOperator(op: string, first: bool, more: string)
    requires OperatorOk(op, first) && op != "" && OneLine(more)
    ensures ParseName(op + ("E" + more)) == Some((op, "E" + more))
  {
    var e := "E" + more;
    var t := op + e;
    assert t[0] == op[0] && (|op| >= 2 ==> t[1] == op[1]) && (|op| == 1 ==> t[1] == 'E');
    NoNumber(t);
    MatchRunIs(op, e, NotE, 1);
    WholeLine(e);
    hide MatchRun;
  }

  lemma IdentStarts(s: string, more: string)
    ensures PrintIdent(s) + more != "" && IsDigit((PrintIdent(s) + more)[0])
  {
    assert (PrintIdent(s) + more)[0] == Decimal(|s|)[0];
  }

  /** Characters that a name or the end of the names can start with. */
  predicate StartsName(c: char) { IsDigit(c) || c == 'C' || c == 'D' }

  lemma BaseStarts(b: Base)
    requires BaseOk(b)
    ensures PrintBase(b) != "" && StartsName(PrintBase(b)[0])
  {
    match b
    case Ident(s) => IdentStarts(s, "");
    case Structor(c, k) =>
  }

  lemma SkipIdent(s: string, more: string)
    requires IdentOk(s) && OneLine(more)
    ensures SkipFrom(PrintIdent(s) + more) == SkipFrom(more)
  {
    MatchIdent(s, more);
    IdentStarts(s, more);
    SkipOnNumber(PrintIdent(s) + more, Decimal(|s|), s + more);
  }

  lemma MatchedSubstitution(id: string, more: string)
    requires SeqIdOk(id) && more != "" && more[0] != '\n'
    ensures MatchSubstitution(PrintSubstitution(id) + more) == Some(Line(more))
  {
    var t := PrintSubstitution(id) + more;
    assert t[0] == 'S' && t[1..] == id + ("_" + more);
    RunOver(id, "_" + more, IsSeqId);
    assert t[1 + |id|] == '_' && t[1 + |id| + 1] == more[0] && t[1 + |id| + 1..] == more;
  }

  lemma SkipSubstitution(id: string, more: string)
    requires SeqIdOk(id) && OneLine(more) && more != ""
    ensures SkipFrom(PrintSubstitution(id) + more) == SkipFrom(more)
  {
    var t := PrintSubstitution(id) + more;
    MatchedSubstitution(id, more);
    WholeLine(more);
    assert t[0] == 'S';
    SkipOnSubstitution(t, more);
  }

  // ---------- Printed text has no newline ----------

  lemma BaseOneLine(b: Base)
    requires BaseOk(b)
    ensures OneLine(PrintBase(b))
  {
    if b.Ident? {
      var d := Decimal(|b.s|);
      assert forall k :: 0 <= k < |d| ==> IsDigit(d[k]);
    }
  }

  lemma SubstitutionOneLine(id: string)
    requires SeqIdOk(id)
    ensures OneLine(PrintSubstitution(id))
  {
    assert forall i :: 0 <= i < |id| ==> IsSeqId(id[i]);
  }

  lemma PrefixOneLine(p: Prefix)
    requires PrefixOk(p)
    ensures OneLine(PrintPrefix(p))
  {
    if p.sub.Some? {
      SubstitutionOneLine(p.sub.value);
    }
    assert forall i :: 0 <= i < |p.qualifiers| ==> IsQualifier(p.qualifiers[i]);
  }

  lemma {:induction false} NameOneLine(n: Name)
    requires NameOk(n)
    ensures OneLine(PrintName(n))
    decreases n, 1
  {
    BaseOneLine(n.base);
    if n.Template? {
      ArgsOneLine(n.args);
    }
  }

  lemma {:induction false} ArgOneLine(a: Arg)
    requires ArgOk(a)
    ensures OneLine(PrintArg(a))
    decreases a, 1
  {
    hide PrintPrefix, PrintIdent, PrintSubstitution, IdentOk, PrefixOk, SeqIdOk;
    match a
    case Letter(c) =>
    case Substitution(id) => SubstitutionOneLine(id);
    case Pack(as_) => ArgsOneLine(as_);
    case Named(s) => IdentOneLine(s);
    case NamedTemplate(s, as_) =>
      IdentOneLine(s);
      ArgsOneLine(as_);
    case Nested(p, ns, op) =>
      PrefixOneLine(p);
      NamesOneLine(ns);
      assert OneLine("N" + PrintPrefix(p)) && OneLine(PrintNames(ns) + op);
  }

  lemma IdentOneLine(s: string)
    requires IdentOk(s)
    ensures OneLine(PrintIdent(s))
  {
    BaseOneLine(Ident(s));
  }

  lemma {:induction false} ArgsOneLine(as_: seq<Arg>)
    requires ArgsOk(as_)
    ensures OneLine(PrintArgs(as_))
    decreases as_, 0
  {
    if as_ != [] {
      hide ArgOk, PrintArg;
      ArgOneLine(as_[0]);
      ArgsOneLine(as_[1..]);
    }
  }

  lemma {:induction false} NamesOneLine(ns: seq<Name>)
    requires NamesOk(ns)
    ensures OneLine(PrintNames(ns))
    decreases ns, 0
  {
    if ns != [] {
      hide NameOk, PrintName;
      NameOneLine(ns[0]);
      NamesOneLine(ns[1..]);
    }
  }

  // ---------- Round trips ----------

  lemma SkipLetter(c: char, more: string)
    requires LetterOk(c)
    ensures SkipFrom([c] + more) == SkipFrom(more)
  {
    var t := [c] + more;
    assert t[0] == c && t[1..] == more;
    SkipOnOther(t);
  }

  lemma SkipInner(inner: string, more: string)
    requires SkipFrom(inner + "E" + more) == Rest(more)
    ensures SkipFrom("I" + inner + "E" + more) == SkipFrom(more)
  {
    hide SkipFrom;
    var t := "I" + inner + "E" + more;
    assert t[0] == 'I' && t[1..] == inner + "E" + more;
    SkipOnTemplate(t);
  }

  lemma SkipNested(t: string, names: Names, more: string)
    requires t != "" && t[0] == 'N' && ParseNestedName(t) == Parsed(names, more)
    ensures SkipFrom(t) == SkipFrom(more)
  {
    SkipOnNested(t);
    hide SkipFrom, ParseNestedName;
  }

  lemma {:induction false} SkipArg(a: Arg, more: string)
    requires ArgOk(a) && OneLine(more) && more != ""
    ensures SkipFrom(PrintArg(a) + more) == SkipFrom(more)
    decreases a, 1
  {
    hide SkipFrom, PrintIdent, PrintSubstitution, PrintPrefix, IdentOk, SeqIdOk, LetterOk, PrefixOk, ParseNestedName;
    match a
    case Letter(c) => SkipLetter(c, more);
    case Substitution(id) => SkipSubstitution(id, more);
    case Pack(as_) =>
      SkipArgs(as_, more);
      SkipInner(PrintArgs(as_), more);
      Regroup("I", PrintArgs(as_), "E", more);
    case Named(s) => SkipIdent(s, more);
    case NamedTemplate(s, as_) =>
      var inner := "I" + PrintArgs(as_) + "E" + more;
      assert PrintArg(a) + more == PrintIdent(s) + inner;
      ArgsOneLine(as_);
      SkipIdent(s, inner);
      SkipArgs(as_, more);
      SkipInner(PrintArgs(as_), more);
    case Nested(p, ns, op) =>
      ParseOneLine(p, ns, op, more);
      SkipNested(PrintArg(a) + more, NamesOf(ns, op), more);
  }

  /** Template arguments are skipped, whatever follows. */
  lemma {:induction false} SkipAll(as_: seq<Arg>, more: string)
    requires ArgsOk(as_) && OneLine(more) && more != ""
    ensures SkipFrom(PrintArgs(as_) + more) == SkipFrom(more)
    decreases as_, 0
  {
    if as_ == [] {
      assert PrintArgs(as_) + more == more;
    } else {
      hide SkipFrom, ArgOk, PrintArg;
      var after := PrintArgs(as_[1..]) + more;
      assert PrintArgs(as_) + more == PrintArg(as_[0]) + after;
      ArgsOneLine(as_[1..]);
      SkipArg(as_[0], after);
      SkipAll(as_[1..], more);
    }
  }

  /** They are skipped up to the E that ends them. */
  lemma {:induction false} SkipArgs(as_: seq<Arg>, more: string)
    requires ArgsOk(as_) && OneLine(more)
    ensures SkipFrom(PrintArgs(as_) + "E" + more) == Rest(more)
    decreases as_, 1
  {
    var t := "E" + more;
    SkipAll(as_, t);
    assert PrintArgs(as_) + "E" + more == PrintArgs(as_) + t && t[1..] == more;
    SkipOnEnd(t);
  }

  /** An operator, if there is one, and the E that ends the names. */
  lemma LastRoundTrip(op: string, first: bool, before: Names, more: string)
    requires OperatorOk(op, first) && OneLine(more)
    ensures NamesFrom(op + ("E" + more), before) == Parsed(before + NamesOf([], op), more)
  {
    var e := "E" + more;
    assert e[1..] == more;
    hide ParseName;
    if op == "" {
      assert op + e == e && before + [] == before;
    } else {
      ParseOperator(op, first, more);
      assert (op + e)[0] == op[0];
    }
  }

  /** Names are read one by one, whatever follows that is not a template. */
  lemma {:induction false} NamesThen(ns: seq<Name>, before: Names, more: string)
    requires NamesOk(ns) && OneLine(more) && AfterName(more)
    ensures NamesFrom(PrintNames(ns) + more, before) == NamesFrom(more, before + NamesOf(ns, ""))
    decreases ns, 0
  {
    hide NamesFrom, PrintName, PrintBase, NameOk;
    if ns == [] {
      assert PrintNames(ns) + more == more && before + [] == before;
    } else {
      var n, after := ns[0], PrintNames(ns[1..]) + more;
      assert PrintNames(ns) + more == PrintName(n) + after;
      NamesOneLine(ns[1..]);
      NextStart(ns[1..], more);
      OneName(n, after, before);
      NamesThen(ns[1..], before + [(PrintBase(n.base), n.Template?)], more);
      NamesMore(before, ns, "");
    }
  }

  lemma {:induction false} NamesWith(ns: seq<Name>, op: string)
    ensures NamesOf(ns, op) == NamesOf(ns, "") + NamesOf([], op)
    decreases |ns|
  {
    if ns != [] {
      NamesWith(ns[1..], op);
    }
  }

  /** The names up to the final E are given back in order, with the operator, if there is one. */
  lemma NamesRoundTrip(ns: seq<Name>, op: string, first: bool, before: Names, more: string)
    requires NamesOk(ns) && OperatorOk(op, first) && OneLine(more)
    ensures NamesFrom(PrintNames(ns) + op + "E" + more, before) == Parsed(before + NamesOf(ns, op), more)
    decreases ns, 1
  {
    var rest := op + ("E" + more);
    assert PrintNames(ns) + op + "E" + more == PrintNames(ns) + rest;
    hide NamesFrom, NamesOk, NamesOf, PrintNames;
    NamesThen(ns, before, rest);
    LastRoundTrip(op, first, before + NamesOf(ns, ""), more);
    NamesWith(ns, op);
    assert before + NamesOf(ns, "") + NamesOf([], op) == before + (NamesOf(ns, "") + NamesOf([], op));
  }

  lemma AfterOneLine(ns: seq<Name>, op: string, first: bool, more: string)
    requires NamesOk(ns) && OperatorOk(op, first) && OneLine(more)
    ensures OneLine(PrintNames(ns) + op + "E" + more)
  {
    hide NamesOk, PrintNames;
    NamesOneLine(ns);
  }

  lemma NamesMore(before: Names, ns: seq<Name>, op: string)
    requires ns != []
    ensures before + [(PrintBase(ns[0].base), ns[0].Template?)] + NamesOf(ns[1..], op) == before + NamesOf(ns, op)
  {
    hide PrintBase;
  }

  /** What follows a name is not a template, as far as the printer goes: the next name, or the end. */
  predicate AfterName(more: string) { more != "" && more[0] != 'I' }

  lemma {:induction false} OneName(n: Name, more: string, before: Names)
    requires NameOk(n) && OneLine(more) && AfterName(more)
    ensures NamesFrom(PrintName(n) + more, before) == NamesFrom(more, before + [(PrintBase(n.base), n.Template?)])
    decreases n, 0
  {
    hide SkipFrom, ParseName, PrintBase, BaseOk;
    BaseStarts(n.base);
    if n.Plain? {
      ParseBase(n.base, more);
      assert (PrintBase(n.base) + more)[0] == PrintBase(n.base)[0];
    } else {
      var inner := "I" + PrintArgs(n.args) + "E" + more;
      assert PrintName(n) + more == PrintBase(n.base) + inner;
      ArgsOneLine(n.args);
      ParseBase(n.base, inner);
      assert (PrintBase(n.base) + inner)[0] == PrintBase(n.base)[0];
      assert inner[0] == 'I' && inner[1..] == PrintArgs(n.args) + "E" + more;
      SkipArgs(n.args, more);
    }
  }

  lemma NameStarts(n: Name)
    requires NameOk(n)
    ensures PrintName(n) != "" && StartsName(PrintName(n)[0])
  {
    hide PrintBase, PrintArgs, BaseOk;
    BaseStarts(n.base);
  }

  /** Printed names and what is behind them start with a name, or with what is behind. */
  lemma NamesStart(ns: seq<Name>, more: string)
    requires NamesOk(ns) && more != ""
    ensures var t := PrintNames(ns) + more; t != "" && (StartsName(t[0]) || t[0] == more[0])
  {
    hide PrintName, NameOk, StartsName;
    if ns != [] {
      NameStarts(ns[0]);
      assert (PrintNames(ns) + more)[0] == PrintName(ns[0])[0];
    } else {
      assert PrintNames(ns) + more == more;
    }
  }

  lemma NextStart(ns: seq<Name>, more: string)
    requires NamesOk(ns) && AfterName(more)
    ensures AfterName(PrintNames(ns) + more)
  {
    hide PrintNames, NamesOk;
    NamesStart(ns, more);
  }

  lemma Regroup(a: string, b: string, c: string, d: string)
    ensures a + b + c + d == a + (b + c + d)
  {
  }

  // ---------- What comes in front of the names ----------

  /** The names of a nested name, with all that follows. */
  function Tail(ns: seq<Name>, op: string, more: string): string { PrintNames(ns) + op + "E" + more }

  /** What can come first in a nested name without being taken for something else. */
  predicate FirstOk(t: string) { t != "" && !IsQualifier(t[0]) && t[0] != '\n' && t[0] != 'S' }

  lemma NotQualifier(ns: seq<Name>, op: string, more: string)
    requires NamesOk(ns) && OperatorOk(op, ns == [])
    ensures FirstOk(Tail(ns, op, more))
  {
    var rest := op + ("E" + more);
    assert Tail(ns, op, more) == PrintNames(ns) + rest;
    if ns == [] {
      assert PrintNames(ns) + rest == rest;
    } else {
      hide PrintNames, NamesOk;
      NamesFirst(ns, rest);
    }
  }

  lemma NamesFirst(ns: seq<Name>, more: string)
    requires NamesOk(ns) && ns != []
    ensures FirstOk(PrintNames(ns) + more)
  {
    hide PrintName, NameOk;
    NameStarts(ns[0]);
    assert (PrintNames(ns) + more)[0] == PrintName(ns[0])[0];
  }

  lemma NotSubstitution(q: string, names: string)
    requires (forall i :: 0 <= i < |q| ==> IsQualifier(q[i])) && names != "" && names[0] != 'S'
    ensures MatchSubstitution(q + names) == None
  {
    assert (q + names)[0] == if q == "" then names[0] else q[0];
  }

  lemma QualifiersSkipped(t: string, rest: string, q: string, names: string)
    requires t != "" && t[0] == 'N' && (match MatchSubstitution(t[1..]) case Some(more) => more case None => t[1..]) == rest
    requires rest == q + names && (forall i :: 0 <= i < |q| ==> IsQualifier(q[i])) && names != "" && !IsQualifier(names[0]) && names[0] != '\n'
    ensures SkipPrefix(t) == Line(names)
  {
    hide MatchRun, MatchSubstitution, Line;
    MatchRunIs(q, names, IsQualifier, 0);
  }

  lemma PrefixGone(p: Prefix, names: string)
    requires PrefixOk(p) && FirstOk(names)
    ensures SkipPrefix("N" + (PrintPrefix(p) + names)) == Line(names)
  {
    hide MatchRun, MatchSubstitution, IsQualifier, Line, SkipPrefix, PrintSubstitution;
    var q := p.qualifiers;
    var t := "N" + (PrintPrefix(p) + names);
    assert t[0] == 'N' && t[1..] == PrintPrefix(p) + names;
    if p.sub.None? {
      assert t[1..] == q + names;
      NotSubstitution(q, names);
      QualifiersSkipped(t, q + names, q, names);
    } else {
      assert t[1..] == PrintSubstitution(p.sub.value) + (q + names);
      assert (q + names)[0] == if q == "" then names[0] else q[0];
      QualifiersOneLine(q);
      MatchedSubstitution(p.sub.value, q + names);
      LineAfter(q, names);
      LineStarts(names);
      QualifiersSkipped(t, q + Line(names), q, Line(names));
      LineTwice(names);
    }
  }

  /** In front of the names a substitution and qualifiers are skipped, and everything from a newline on is lost. */
  lemma PrefixSkipped(p: Prefix, ns: seq<Name>, op: string, more: string)
    requires PrefixOk(p) && NamesOk(ns) && OperatorOk(op, ns == [])
    ensures SkipPrefix("N" + PrintPrefix(p) + (PrintNames(ns) + op) + "E" + more) == PrintNames(ns) + op + "E" + Line(more)
  {
    hide PrintNames, Line, NamesOk, SkipPrefix, OperatorOk, PrintPrefix, PrefixOk, FirstOk;
    var names := Tail(ns, op, more);
    assert "N" + PrintPrefix(p) + (PrintNames(ns) + op) + "E" + more == "N" + (PrintPrefix(p) + names);
    NotQualifier(ns, op, more);
    PrefixGone(p, names);
    AfterOneLine(ns, op, ns == [], "");
    assert PrintNames(ns) + op + "E" + "" == PrintNames(ns) + op + "E";
    LineAfter(PrintNames(ns) + op + "E", more);
  }

  lemma QualifiersOneLine(q: string)
    requires forall i :: 0 <= i < |q| ==> IsQualifier(q[i])
    ensures OneLine(q)
  {
  }

  lemma LineStarts(s: string)
    requires s != "" && s[0] != '\n'
    ensures Line(s) != "" && Line(s)[0] == s[0]
  {
  }

  lemma LineTwice(s: string)
    ensures Line(Line(s)) == Line(s)
  {
    LineIsOneLine(s);
    WholeLine(Line(s));
    hide Line;
  }

  lemma {:induction false} ParseOneLine(p: Prefix, ns: seq<Name>, op: string, more: string)
    requires PrefixOk(p) && NamesOk(ns) && OperatorOk(op, ns == []) && OneLine(more)
    ensures var t := PrintArg(Nested(p, ns, op)) + more;
            t != "" && t[0] == 'N' && ParseNestedName(t) == Parsed(NamesOf(ns, op), more)
    decreases ns, 2
  {
    hide NamesFrom, SkipPrefix, OperatorOk, PrefixOk, NamesOk, PrintPrefix, PrintNames, NamesOf;
    PrefixSkipped(p, ns, op, more);
    WholeLine(more);
    NamesRoundTrip(ns, op, ns == [], [], more);
    assert [] + NamesOf(ns, op) == NamesOf(ns, op);
  }

  function PrintNested(p: Prefix, ns: seq<Name>, op: string): string { "N" + PrintPrefix(p) + (PrintNames(ns) + op) + "E" }

  /**
   Parsing a printed nested name gives back its names and template flags, and the rest of the
   line as it was, however deep its template arguments are nested.
   */
  lemma ParsePrinted(p: Prefix, ns: seq<Name>, op: string, more: string)
    requires PrefixOk(p) && NamesOk(ns) && OperatorOk(op, ns == [])
    ensures ParseNestedName(PrintNested(p, ns, op) + more) == Parsed(NamesOf(ns, op), Line(more))
  {
    hide PrintNames, NamesOf, NamesFrom, SkipPrefix, Line, OneLine, NamesOk, OperatorOk, PrefixOk, PrintPrefix;
    PrefixSkipped(p, ns, op, more);
    LineIsOneLine(more);
    NamesRoundTrip(ns, op, ns == [], [], Line(more));
    assert [] + NamesOf(ns, op) == NamesOf(ns, op);
  }

  /** The rest of the text is given back as it was exactly if it holds no newline. */
  lemma RestKeptIff(p: Prefix, ns: seq<Name>, op: string, more: string)
    requires PrefixOk(p) && NamesOk(ns) && OperatorOk(op, ns == [])
    ensures ParseNestedName(PrintNested(p, ns, op) + more) == Parsed(NamesOf(ns, op), more) <==> OneLine(more)
  {
    var t := PrintNested(p, ns, op) + more;
    assert t[0] == 'N';
    hide ParseNestedName, PrintNested, NamesOf, NamesOk, OperatorOk, PrefixOk, Line;
    ParsePrinted(p, ns, op, more);
    LineIsOneLine(more);
    if OneLine(more) {
      WholeLine(more);
    }
  }

  const NO_PREFIX: Prefix := Prefix(None, "")

  /** With a second line behind the name `a`, only the first is given back. */
  lemma NewlineIsLost()
    ensures ParseNestedName(PrintNested(NO_PREFIX, [Plain(Ident("a"))], "") + "x\ny") == Parsed(NamesOf([Plain(Ident("a"))], ""), "x")
  {
    var ns := [Plain(Ident("a"))];
    assert (PrintNested(NO_PREFIX, ns, "") + "x\ny")[0] == 'N';
    assert NameOk(ns[0]);
    hide ParseNestedName, PrintNested, NamesOf, Line;
    ParsePrinted(NO_PREFIX, ns, "", "x\ny");
    TwoLines();
  }

  lemma TwoLines()
    ensures Line("x\ny") == "x"
  {
    assert "x\ny"[1..] == "\ny";
    assert RunLength("\ny", NotNewline) == 0;
    assert RunLength("x\ny", NotNewline) == 1;
  }

  // ---------- Expressions, which are given up on ----------

  /**
   Template arguments up to an expression, which starts with L or X: it is the next argument, or in a pack, in the
   arguments of a name, or in those of one of the names of a nested name.
   */
  datatype Trouble =
    | Here(args: seq<Arg>, c: char)
    | InPack(args: seq<Arg>, inner: Trouble)
    | InName(args: seq<Arg>, ident: string, inner: Trouble)
    | InNested(args: seq<Arg>, prefix: Prefix, names: seq<Name>, base: Base, inner: Trouble)

  predicate TroubleOk(t: Trouble) {
    ArgsOk(t.args) &&
    match t
    case Here(_, c) => c == 'L' || c == 'X'
    case InPack(_, inner) => TroubleOk(inner)
    case InName(_, s, inner) => IdentOk(s) && TroubleOk(inner)
    case InNested(_, p, ns, b, inner) => PrefixOk(p) && NamesOk(ns) && BaseOk(b) && TroubleOk(inner)
  }

  function PrintTrouble(t: Trouble): string {
    PrintArgs(t.args) +
    match t
    case Here(_, c) => [c]
    case InPack(_, inner) => "I" + PrintTrouble(inner)
    case InName(_, s, inner) => PrintIdent(s) + ("I" + PrintTrouble(inner))
    case InNested(_, p, ns, b, inner) => "N" + PrintPrefix(p) + (PrintNames(ns) + (PrintBase(b) + ("I" + PrintTrouble(inner))))
  }

  lemma SkipOnExpression(c: char, more: string)
    requires c == 'L' || c == 'X'
    ensures SkipFrom([c] + more) == TooComplexName
  {
    var t := [c] + more;
    assert t[0] == c;
    NoNumber(t);
    hide MatchRun;
  }

  lemma {:induction false} TroubleOneLine(t: Trouble)
    requires TroubleOk(t)
    ensures OneLine(PrintTrouble(t)) && PrintTrouble(t) != ""
  {
    ArgsOneLine(t.args);
    hide PrintArgs, ArgsOk, NamesOk, PrintNames, PrintBase, BaseOk, PrintPrefix, PrefixOk, PrintIdent, IdentOk;
    match t
    case Here(_, c) =>
    case InPack(_, inner) => TroubleOneLine(inner);
    case InName(_, s, inner) =>
      TroubleOneLine(inner);
      IdentOneLine(s);
    case InNested(_, p, ns, b, inner) =>
      TroubleOneLine(inner);
      PrefixOneLine(p);
      NamesOneLine(ns);
      BaseOneLine(b);
  }

  /** On the way through template arguments an expression is found wherever it is. */
  lemma {:induction false} TroubleFound(t: Trouble, more: string)
    requires TroubleOk(t) && OneLine(more)
    ensures SkipFrom(PrintTrouble(t) + more) == TooComplexName
    decreases t, 1
  {
    hide PrintArgs, ArgsOk, NamesOk, PrintNames, PrintBase, BaseOk, PrintPrefix, PrefixOk, PrintIdent, IdentOk, SkipFrom, ParseNestedName;
    TroubleOneLine(t);
    var args := PrintArgs(t.args);
    var rest := PrintTrouble(t)[|args|..] + more;
    assert PrintTrouble(t) + more == args + rest;
    SkipAll(t.args, rest);
    match t
    case Here(_, c) => SkipOnExpression(c, more);
    case InPack(_, inner) => PackTrouble(inner, more, rest);
    case InName(_, s, inner) =>
      var pack := "I" + PrintTrouble(inner) + more;
      assert rest == PrintIdent(s) + pack;
      TroubleOneLine(inner);
      SkipIdent(s, pack);
      PackTrouble(inner, more, pack);
    case InNested(_, p, ns, b, inner) =>
      assert rest == "N" + PrintPrefix(p) + (PrintNames(ns) + (PrintBase(b) + ("I" + PrintTrouble(inner)))) + more;
      NestedTrouble(p, ns, b, inner, more);
      SkipOnNested(rest);
  }

  lemma {:induction false} PackTrouble(inner: Trouble, more: string, t: string)
    requires TroubleOk(inner) && OneLine(more) && t == "I" + PrintTrouble(inner) + more
    ensures SkipFrom(t) == TooComplexName
    decreases inner, 2
  {
    hide SkipFrom;
    assert t[0] == 'I' && t[1..] == PrintTrouble(inner) + more;
    TroubleFound(inner, more);
    SkipOnTemplate(t);
  }

  /** A nested name is too complex if there is an expression anywhere in its template arguments. */
  lemma {:induction false} NestedTrouble(p: Prefix, ns: seq<Name>, b: Base, inner: Trouble, more: string)
    requires PrefixOk(p) && NamesOk(ns) && BaseOk(b) && TroubleOk(inner)
    ensures ParseNestedName("N" + PrintPrefix(p) + (PrintNames(ns) + (PrintBase(b) + ("I" + PrintTrouble(inner)))) + more) == TooComplexNested
    decreases inner, 3
  {
    hide PrintNames, NamesOk, PrintBase, BaseOk, PrintPrefix, PrefixOk, SkipFrom, Line, NamesFrom, SkipPrefix;
    var whole := "N" + PrintPrefix(p) + (PrintNames(ns) + (PrintBase(b) + ("I" + PrintTrouble(inner)))) + more;
    var front := PrintNames(ns) + (PrintBase(b) + ("I" + PrintTrouble(inner)));
    var rest := PrintBase(b) + ("I" + PrintTrouble(inner) + Line(more));
    assert whole == "N" + (PrintPrefix(p) + (front + more)) && whole[0] == 'N';
    TroubleOneLine(inner);
    BaseOneLine(b);
    BaseStarts(b);
    NamesOneLine(ns);
    LineIsOneLine(more);
    FrontFirst(ns, b, "I" + PrintTrouble(inner) + more);
    assert front + more == PrintNames(ns) + (PrintBase(b) + ("I" + PrintTrouble(inner) + more));
    PrefixGone(p, front + more);
    LineAfter(front, more);
    assert front + Line(more) == PrintNames(ns) + rest;
    assert rest[0] == PrintBase(b)[0];
    NamesThen(ns, [], rest);
    BaseTrouble(b, inner, [] + NamesOf(ns, ""), Line(more));
  }

  lemma FrontFirst(ns: seq<Name>, b: Base, more: string)
    requires NamesOk(ns) && BaseOk(b)
    ensures FirstOk(PrintNames(ns) + (PrintBase(b) + more))
  {
    hide PrintBase, BaseOk, NamesOk;
    BaseStarts(b);
    var rest := PrintBase(b) + more;
    assert rest[0] == PrintBase(b)[0];
    if ns == [] {
      assert PrintNames(ns) + rest == rest;
    } else {
      NamesFirst(ns, rest);
    }
  }

  lemma {:induction false} BaseTrouble(b: Base, inner: Trouble, before: Names, more: string)
    requires BaseOk(b) && TroubleOk(inner) && OneLine(more)
    ensures NamesFrom(PrintBase(b) + ("I" + PrintTrouble(inner) + more), before) == TooComplexNested
    decreases inner, 2
  {
    hide PrintBase, BaseOk, SkipFrom, ParseName;
    var pack := "I" + PrintTrouble(inner) + more;
    TroubleOneLine(inner);
    ParseBase(b, pack);
    BaseStarts(b);
    assert (PrintBase(b) + pack)[0] == PrintBase(b)[0];
    assert pack[0] == 'I' && pack[1..] == PrintTrouble(inner) + more;
    TroubleFound(inner, more);
  }
}
