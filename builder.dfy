/**
 * The serialisation code generator's decisions: the name of the generated
 * header, which names are unwanted, how a declaration is named, when a type
 * is replaced by its typedef, and, for every serialisable class of the
 * namespace, which registration macro it gets, with which bases and
 * members, and whether it is registered with the archive.  The parsed
 * declarations are given as data; the text written to the file is not
 * modelled.
 */
module Builder {
  import opened Wrappers

  // ---------------------------------------------------------------------------
  // generated_file
  // ---------------------------------------------------------------------------

  const GeneratedPrefix: string := "../src/Siconos"
  const GeneratedSuffix: string := "Generated.hpp"

  function GeneratedFile(targ: string): (f: string)
  {
    GeneratedPrefix + targ + GeneratedSuffix
  }

  /** The target a generated header name was made for, if it has the generated form. */
  function TargetOf(f: string): (r: Option<string>)
  {
    var p, s := |GeneratedPrefix|, |GeneratedSuffix|;
    if p + s <= |f| && f[..p] == GeneratedPrefix && f[|f| - s..] == GeneratedSuffix
    then Some(f[p..|f| - s])
    else None
  }

  /** The header name determines its target, and every name of that form is some target's header. */
  lemma GeneratedFileRoundTrip(targ: string, f: string)
    ensures TargetOf(GeneratedFile(targ)) == Some(targ)
    ensures TargetOf(f) == Some(targ) ==> GeneratedFile(targ) == f
  {
    var g := GeneratedFile(targ);
    var p, s := |GeneratedPrefix|, |GeneratedSuffix|;
    assert g[..p] == GeneratedPrefix;
    assert g[|g| - s..] == GeneratedSuffix;
    assert g[p..|g| - s] == targ;
    if TargetOf(f) == Some(targ) {
      assert f == f[..p] + f[p..|f| - s] + f[|f| - s..];
    }
  }

  // ---------------------------------------------------------------------------
  // unwanted
  // ---------------------------------------------------------------------------

  /** The alternatives of the unwanted pattern: a name is unwanted when it contains one. */
  const UnwantedTokens: seq<string> := [
    "xml", "XML", "Xml", "MBlockCSR", "fPtr", "SimpleMatrix", "SimpleVector",
    "SiconosVector", "SiconosSet", "DynamicalSystemsSet", "SiconosGraph",
    "SiconosSharedLibrary", "numerics", "computeFIntPtr", "computeJacobianFIntqPtr",
    "computeJacobianFIntqDotPtr", "PrimalFrictionContact", "FrictionContact",
    "Lsodar", "MLCP2", "_moving_plans", "_err"]

  predicate IsPrefix(p: string, s: string) {
    |p| <= |s| && s[..|p|] == p
  }

  /** tok occurs in s starting at index i. */
  predicate OccursAtIndex(tok: string, s: string, i: nat) {
    i + |tok| <= |s| && s[i..i + |tok|] == tok
  }

  /** A regular-expression search for the literal tok: does it match somewhere in s? */
  function Occurs(tok: string, s: string): bool
    decreases |s|
  {
    IsPrefix(tok, s) || (0 < |s| && Occurs(tok, s[1..]))
  }

  /** The search finds tok exactly when tok is a substring of s. */
  lemma {:induction false} OccursIff(tok: string, s: string)
    ensures Occurs(tok, s) <==> exists i: nat :: OccursAtIndex(tok, s, i)
    decreases |s|
  {
    if IsPrefix(tok, s) {
      assert OccursAtIndex(tok, s, 0);
    } else if 0 < |s| {
      OccursIff(tok, s[1..]);
      if i: nat :| OccursAtIndex(tok, s[1..], i) {
        assert s[1..][i..i + |tok|] == s[i + 1..i + 1 + |tok|];
        assert OccursAtIndex(tok, s, i + 1);
      }
      if i: nat :| OccursAtIndex(tok, s, i) {
        assert i > 0;
        assert s[1..][i - 1..i - 1 + |tok|] == s[i..i + |tok|];
        assert OccursAtIndex(tok, s[1..], i - 1);
      }
    }
  }

  function AnyOccurs(toks: seq<string>, s: string): bool
  {
    0 < |toks| && (Occurs(toks[0], s) || AnyOccurs(toks[1..], s))
  }

  lemma {:induction false} AnyOccursIff(toks: seq<string>, s: string)
    ensures AnyOccurs(toks, s) <==> exists k :: 0 <= k < |toks| && Occurs(toks[k], s)
  {
    if 0 < |toks| {
      AnyOccursIff(toks[1..], s);
      if k :| 0 <= k < |toks| && Occurs(toks[k], s) {
        if k > 0 { assert toks[1..][k - 1] == toks[k]; }
      }
    }
  }

  /** unwanted(s): the pattern is found somewhere in s (case-sensitive). */
  function Unwanted(s: string): bool
  {
    AnyOccurs(UnwantedTokens, s)
  }

  /** A name is unwanted exactly when one of the tokens is a substring of it. */
  lemma UnwantedIff(s: string)
    ensures Unwanted(s) <==> exists k, i: nat :: 0 <= k < |UnwantedTokens| && OccursAtIndex(UnwantedTokens[k], s, i)
  {
    AnyOccursIff(UnwantedTokens, s);
    forall k | 0 <= k < |UnwantedTokens| {
      OccursIff(UnwantedTokens[k], s);
    }
  }

  // ---------------------------------------------------------------------------
  // Declarations
  // ---------------------------------------------------------------------------

  /** A member variable and the text of its type. */
  datatype Variable = Variable(name: string, typeText: string)

  /**
   * A parsed class: its name, full name and enclosing namespace, the names
   * of the typedefs it declares (the serialisable tag is one), whether its
   * name is a template instantiation, whether it is abstract, its bases and
   * its member variables.
   */
  datatype ClassDecl = ClassDecl(
    name: string, fullName: string, parentName: string, typedefNames: seq<string>,
    isInstantiation: bool, isAbstract: bool, bases: seq<Base>, variables: seq<Variable>)

  datatype Base = Base(relatedClass: ClassDecl)

  /** A parsed typedef: its declaration string, the text of the aliased type, its namespace. */
  datatype TypedefDecl = TypedefDecl(declString: string, typeText: string, parentName: string)

  datatype Decl = ClassD(c: ClassDecl) | TypedefD(t: TypedefDecl)

  function ParentName(d: Decl): string {
    match d
    case ClassD(c) => c.parentName
    case TypedefD(t) => t.parentName
  }

  predicate IsSerializable(c: ClassDecl) {
    "serializable" in c.typedefNames
  }

  /** name(t): the class name, or the typedef's declaration string without its leading "::". */
  function Name(d: Decl): string
  {
    match d
    case ClassD(c) => c.name
    case TypedefD(t) => if 2 <= |t.declString| then t.declString[2..] else ""
  }

  /** A typedef declared at global scope is named by its declaration string after the "::". */
  lemma TypedefName(t: TypedefDecl)
    requires IsPrefix("::", t.declString)
    ensures "::" + Name(TypedefD(t)) == t.declString
  {
    assert t.declString == t.declString[..2] + t.declString[2..];
  }

  // ---------------------------------------------------------------------------
  // The typedef table and replace_by_typedef
  // ---------------------------------------------------------------------------

  /** The table after the typedefs of ts, filled in order: a later typedef of a type overwrites an earlier one. */
  function Table(ts: seq<TypedefDecl>): map<string, string>
  {
    if |ts| == 0 then map[]
    else Table(ts[..|ts| - 1])[ts[|ts| - 1].typeText := Name(TypedefD(ts[|ts| - 1]))]
  }

  /** The table has an entry for exactly the aliased types. */
  lemma {:induction false} TableKeys(ts: seq<TypedefDecl>, key: string)
    ensures key in Table(ts) <==> exists i :: 0 <= i < |ts| && ts[i].typeText == key
  {
    if |ts| > 0 {
      var init := ts[..|ts| - 1];
      TableKeys(init, key);
      if i :| 0 <= i < |init| && init[i].typeText == key {
        assert ts[i] == init[i];
      }
      if i :| 0 <= i < |ts| && ts[i].typeText == key {
        if i < |init| { assert init[i] == ts[i]; }
      }
    }
  }

  /** The entry of a type is the name of the last typedef of that type. */
  lemma {:induction false} TableLast(ts: seq<TypedefDecl>, i: nat)
    requires i < |ts|
    requires forall j :: i < j < |ts| ==> ts[j].typeText != ts[i].typeText
    ensures ts[i].typeText in Table(ts) && Table(ts)[ts[i].typeText] == Name(TypedefD(ts[i]))
  {
    if i < |ts| - 1 {
      var init := ts[..|ts| - 1];
      TableLast(init, i);
    }
  }

  /** The typedef table, filled from every typedef in order. */
  method TypedefTable(typedefs: seq<TypedefDecl>) returns (table: map<string, string>)
    ensures table == Table(typedefs)
  {
    table := map[];
    var n := 0;
    while n < |typedefs|
      invariant 0 <= n <= |typedefs|
      invariant table == Table(typedefs[..n])
    {
      var t := typedefs[n];
      table := table[t.typeText := Name(TypedefD(t))];
      assert typedefs[..n + 1][..n] == typedefs[..n];
      n := n + 1;
    }
    assert typedefs[..n] == typedefs;
  }

  /** replace_by_typedef: the typedef name of a type, unless it has none or it is a template. */
  function ReplaceByTypedef(someType: string, table: map<string, string>): (r: string)
    ensures r != someType ==> someType in table && r == table[someType] && '<' !in r
    ensures someType in table && '<' !in table[someType] ==> r == table[someType]
  {
    if someType in table && '<' !in table[someType] then table[someType] else someType
  }

  // ---------------------------------------------------------------------------
  // One declaration of the main loop
  // ---------------------------------------------------------------------------

  /** What is written for one class: the registration macro with its bases and members. */
  datatype Registration =
    | Register(name: string, members: seq<string>)
    | RegisterWithBases(name: string, bases: seq<string>, members: seq<string>)

  /** The bases of c that are serialisable and declared in the namespace, in order. */
  function SerializableBases(bases: seq<Base>, ns: string): (r: seq<ClassDecl>)
    ensures forall b :: b in r <==>
      (exists k :: 0 <= k < |bases| && bases[k].relatedClass == b && IsSerializable(b) && b.parentName == ns)
  {
    if |bases| == 0 then []
    else
      var rest := SerializableBases(bases[..|bases| - 1], ns);
      var b := bases[|bases| - 1].relatedClass;
      if IsSerializable(b) && b.parentName == ns then rest + [b] else rest
  }

  /** The names the macro lists as bases, each replaced by its typedef. */
  function BaseNames(bases: seq<ClassDecl>, table: map<string, string>): (r: seq<string>)
    ensures |r| == |bases|
    ensures forall k :: 0 <= k < |bases| ==> r[k] == ReplaceByTypedef(bases[k].name, table)
  {
    if |bases| == 0 then [] else BaseNames(bases[..|bases| - 1], table) + [ReplaceByTypedef(bases[|bases| - 1].name, table)]
  }

  /** The member names written for c: variables whose type mentions no void, and whose name is wanted. */
  function Members(vs: seq<Variable>): (r: seq<string>)
  {
    if |vs| == 0 then []
    else
      var rest := Members(vs[..|vs| - 1]);
      var v := vs[|vs| - 1];
      if !Occurs("void", v.typeText) && !Unwanted(v.name) then rest + [v.name] else rest
  }

  /** A member is written exactly when a variable of that name passes both filters. */
  lemma {:induction false} MembersIff(vs: seq<Variable>, m: string)
    ensures m in Members(vs) <==>
      (exists k :: 0 <= k < |vs| && vs[k].name == m && !Occurs("void", vs[k].typeText) && !Unwanted(m))
  {
    if |vs| > 0 {
      var init := vs[..|vs| - 1];
      MembersIff(init, m);
      if k :| 0 <= k < |init| && init[k].name == m && !Occurs("void", init[k].typeText) && !Unwanted(m) {
        assert vs[k] == init[k];
      }
      if k :| 0 <= k < |vs| && vs[k].name == m && !Occurs("void", vs[k].typeText) && !Unwanted(m) {
        if k < |init| { assert init[k] == vs[k]; }
      }
    }
  }

  /** No written member is unwanted. */
  lemma MembersWanted(vs: seq<Variable>)
    ensures forall m :: m in Members(vs) ==> !Unwanted(m)
  {
    forall m | m in Members(vs) {
      MembersIff(vs, m);
    }
  }

  /**
   * The class a declaration stands for: a class itself, a typedef the class
   * registered under "::" followed by the aliased type, when there is one.
   */
  function Resolve(d: Decl, classNames: map<string, ClassDecl>): Option<ClassDecl>
  {
    match d
    case ClassD(c) => Some(c)
    case TypedefD(t) => if "::" + t.typeText in classNames then Some(classNames["::" + t.typeText]) else None
  }

  /** The class of d is processed: serialisable, not a bare template instantiation, and wanted. */
  predicate Selected(d: Decl, c: ClassDecl) {
    IsSerializable(c) && (d.TypedefD? || !c.isInstantiation) && !Unwanted(c.name)
  }

  /** The macro written for declaration d, which stands for class c. */
  function MacroFor(d: Decl, c: ClassDecl, ns: string, table: map<string, string>): Registration
  {
    var members := Members(c.variables);
    if c.bases == [] then Register(Name(d), members)
    else
      var sb := SerializableBases(c.bases, ns);
      if |sb| > 0 then RegisterWithBases(Name(d), BaseNames(sb, table), members)
      else Register(Name(d), members)
  }

  /**
   * The registration macro choice: a class with serialisable bases in the
   * namespace gets the macro with bases, listing those bases; any other class,
   * with no bases or none that qualify, gets the plain macro.  Either way the
   * declaration's name and the filtered members are written.
   */
  lemma MacroChoice(d: Decl, c: ClassDecl, ns: string, table: map<string, string>)
    ensures MacroFor(d, c, ns, table).name == Name(d)
    ensures MacroFor(d, c, ns, table).members == Members(c.variables)
    ensures MacroFor(d, c, ns, table).RegisterWithBases? <==> |SerializableBases(c.bases, ns)| > 0
    ensures MacroFor(d, c, ns, table).RegisterWithBases? ==>
      MacroFor(d, c, ns, table).bases == BaseNames(SerializableBases(c.bases, ns), table)
  {
    if c.bases == [] {
      assert |SerializableBases(c.bases, ns)| == 0;
    }
  }

  // ---------------------------------------------------------------------------
  // The main loop
  // ---------------------------------------------------------------------------

  /** class_names after the declarations of ds: every class of the namespace under its full name. */
  function ClassNames(ds: seq<Decl>, ns: string): map<string, ClassDecl>
  {
    if |ds| == 0 then map[]
    else
      var names := ClassNames(ds[..|ds| - 1], ns);
      var d := ds[|ds| - 1];
      if ParentName(d) == ns && d.ClassD? then names[d.c.fullName := d.c] else names
  }

  /** The class the last declaration of ds is processed as, if it is processed at all. */
  function ProcessedClass(ds: seq<Decl>, ns: string): Option<ClassDecl>
    requires 0 < |ds|
  {
    var d := ds[|ds| - 1];
    if ParentName(d) != ns then None
    else match Resolve(d, ClassNames(ds[..|ds| - 1], ns))
      case None => None
      case Some(c) => if Selected(d, c) then Some(c) else None
  }

  /** The macros written for ds, in order. */
  function Registrations(ds: seq<Decl>, ns: string, table: map<string, string>): seq<Registration>
  {
    if |ds| == 0 then []
    else
      var rest := Registrations(ds[..|ds| - 1], ns, table);
      match ProcessedClass(ds, ns)
      case None => rest
      case Some(c) => rest + [MacroFor(ds[|ds| - 1], c, ns, table)]
  }

  /** with_base after ds: the names of the processed classes that are not abstract. */
  function WithBase(ds: seq<Decl>, ns: string): seq<string>
  {
    if |ds| == 0 then []
    else
      var rest := WithBase(ds[..|ds| - 1], ns);
      match ProcessedClass(ds, ns)
      case None => rest
      case Some(c) => if !c.isAbstract then rest + [c.name] else rest
  }

  /**
   * The main loop over the classes and then the typedefs of the namespace:
   * classes are recorded in class_names, typedefs resolved through it, and
   * every selected class gets its macro and, when concrete, a place in
   * with_base, whose entries drive the register_type lines.
   */
  method Generate(classes: seq<ClassDecl>, typedefs: seq<TypedefDecl>, ns: string, table: map<string, string>)
    returns (regs: seq<Registration>, withBase: seq<string>)
    ensures regs == Registrations(Chain(classes, typedefs), ns, table)
    ensures withBase == WithBase(Chain(classes, typedefs), ns)
  {
    var ds := Chain(classes, typedefs);
    var classNames: map<string, ClassDecl> := map[];
    regs, withBase := [], [];
    var n := 0;
    while n < |ds|
      invariant 0 <= n <= |ds|
      invariant classNames == ClassNames(ds[..n], ns)
      invariant regs == Registrations(ds[..n], ns, table)
      invariant withBase == WithBase(ds[..n], ns)
    {
      var d := ds[n];
      Step(ds, n, ns, table);
      if ParentName(d) == ns {
        var class_: Option<ClassDecl>;
        if d.ClassD? {
          classNames := classNames[d.c.fullName := d.c];
          class_ := Some(d.c);
        } else if "::" + d.t.typeText in classNames {
          class_ := Some(classNames["::" + d.t.typeText]);
        } else {
          class_ := None;
        }
        if class_.Some? && Selected(d, class_.value) {
          var c := class_.value;
          if !c.isAbstract {
            withBase := withBase + [c.name];
          }
          regs := regs + [MacroFor(d, c, ns, table)];
        }
      }
      n := n + 1;
    }
    assert ds[..n] == ds;
  }

  /** The classes, then the typedefs, as the main loop walks them. */
  function Chain(classes: seq<ClassDecl>, typedefs: seq<TypedefDecl>): (ds: seq<Decl>)
    ensures |ds| == |classes| + |typedefs|
  {
    seq(|classes|, k requires 0 <= k < |classes| => ClassD(classes[k]))
      + seq(|typedefs|, k requires 0 <= k < |typedefs| => TypedefD(typedefs[k]))
  }

  /** One more declaration: how class_names, the macros and with_base grow. */
  lemma Step(ds: seq<Decl>, n: nat, ns: string, table: map<string, string>)
    requires n < |ds|
    ensures var d, s := ds[n], ds[..n + 1];
      ClassNames(s, ns) == (if ParentName(d) == ns && d.ClassD? then ClassNames(ds[..n], ns)[d.c.fullName := d.c] else ClassNames(ds[..n], ns))
      && ProcessedClass(s, ns) == (if ParentName(d) != ns then None
                                   else match Resolve(d, ClassNames(ds[..n], ns))
                                     case None => None
                                     case Some(c) => if Selected(d, c) then Some(c) else None)
      && Registrations(s, ns, table) == (match ProcessedClass(s, ns)
                                         case None => Registrations(ds[..n], ns, table)
                                         case Some(c) => Registrations(ds[..n], ns, table) + [MacroFor(d, c, ns, table)])
      && WithBase(s, ns) == (match ProcessedClass(s, ns)
                             case None => WithBase(ds[..n], ns)
                             case Some(c) => if !c.isAbstract then WithBase(ds[..n], ns) + [c.name] else WithBase(ds[..n], ns))
  {
    assert ds[..n + 1][..n] == ds[..n];
  }

  /** Every class in class_names is a class declared in the namespace. */
  lemma {:induction false} ClassNamesFromDecls(ds: seq<Decl>, ns: string, key: string)
    requires key in ClassNames(ds, ns)
    ensures exists i :: 0 <= i < |ds| && ds[i] == ClassD(ClassNames(ds, ns)[key]) && ParentName(ds[i]) == ns
  {
    var init := ds[..|ds| - 1];
    var d := ds[|ds| - 1];
    if !(ParentName(d) == ns && d.ClassD? && key == d.c.fullName) {
      ClassNamesFromDecls(init, ns, key);
      var i :| 0 <= i < |init| && init[i] == ClassD(ClassNames(init, ns)[key]) && ParentName(init[i]) == ns;
      assert ds[i] == init[i];
    }
  }

  /** A processed class is a serialisable, wanted class declared in the namespace. */
  lemma ProcessedIsDeclared(ds: seq<Decl>, ns: string)
    requires 0 < |ds| && ProcessedClass(ds, ns).Some?
    ensures var c := ProcessedClass(ds, ns).value;
      IsSerializable(c) && !Unwanted(c.name)
      && exists i :: 0 <= i < |ds| && ds[i] == ClassD(c) && ParentName(ds[i]) == ns
  {
    var d := ds[|ds| - 1];
    var init := ds[..|ds| - 1];
    if d.TypedefD? {
      ClassNamesFromDecls(init, ns, "::" + d.t.typeText);
      var i :| 0 <= i < |init| && init[i] == ClassD(ClassNames(init, ns)["::" + d.t.typeText]) && ParentName(init[i]) == ns;
      assert ds[i] == init[i];
    }
  }

  /**
   * with_base holds only concrete classes: each name in it is the name of a
   * non-abstract, serialisable, wanted class declared in the namespace.
   */
  lemma {:induction false} WithBaseConcrete(ds: seq<Decl>, ns: string, name: string)
    requires name in WithBase(ds, ns)
    ensures exists i :: (0 <= i < |ds| && ds[i].ClassD? && ds[i].c.name == name && ParentName(ds[i]) == ns
      && !ds[i].c.isAbstract && IsSerializable(ds[i].c) && !Unwanted(name))
  {
    var init := ds[..|ds| - 1];
    var p := ProcessedClass(ds, ns);
    if p.Some? && !p.value.isAbstract && name == p.value.name {
      ProcessedIsDeclared(ds, ns);
    } else {
      WithBaseConcrete(init, ns, name);
      var i :| 0 <= i < |init| && init[i].ClassD? && init[i].c.name == name && ParentName(init[i]) == ns
        && !init[i].c.isAbstract && IsSerializable(init[i].c) && !Unwanted(name);
      assert ds[i] == init[i];
    }
  }

  /** Every written macro lists only wanted members. */
  lemma {:induction false} RegisteredMembersWanted(ds: seq<Decl>, ns: string, table: map<string, string>)
    ensures forall r, m :: r in Registrations(ds, ns, table) && m in r.members ==> !Unwanted(m)
  {
    if |ds| > 0 {
      RegisteredMembersWanted(ds[..|ds| - 1], ns, table);
      var p := ProcessedClass(ds, ns);
      if p.Some? {
        MembersWanted(p.value.variables);
        MacroChoice(ds[|ds| - 1], p.value, ns, table);
      }
    }
  }
}
