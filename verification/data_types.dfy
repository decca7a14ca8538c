/** Type descriptors of the scripting language: the three scalar types and
    the list type with its element type. */
module DataTypes {
  datatype DataType = NumberType | StringType | BoolType | ListType(ofType: DataType)
  {
    predicate IsScalar() { !ListType? }

    /** `str(t)`; `repr(t)` is the same text. */
    function Name(): (s: string)
      ensures |s| >= 4
      ensures ListType? <==> s[0] == 'l'
    {
      match this
      case NumberType => "number"
      case StringType => "string"
      case BoolType => "bool"
      case ListType(of) => "list<" + of.Name() + ">"
    }
  }

  /** Names tell types apart: two descriptors are equal exactly when they
      print the same. */
  lemma {:induction false} NameInjective(a: DataType, b: DataType)
    ensures a == b <==> a.Name() == b.Name()
  {
    if a.Name() == b.Name() && a.ListType? && b.ListType? {
      var na := a.ofType.Name();
      var nb := b.ofType.Name();
      assert a.Name()[5..|a.Name()| - 1] == na;
      assert b.Name()[5..|b.Name()| - 1] == nb;
      NameInjective(a.ofType, b.ofType);
    } else if a.Name() == b.Name() && !a.ListType? && !b.ListType? {
      assert a.Name()[0] == b.Name()[0];
    }
  }
}
