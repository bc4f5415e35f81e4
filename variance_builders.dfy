/**
 * The copy-on-write value builders of the method-override variance test: an immutable
 * array with a persistent append, and parameter and signature records whose setters
 * and adders return a new record with exactly one field replaced. `Ty` stands for
 * System.Type, which the builders only store and compare.
 */
module VarianceBuilders {

  /** An array that is never updated in place; Add returns a new one. */
  datatype ImmutableArray<T> = ImmutableArray(items: seq<T>)
  {
    /** Persistent append: the receiver's elements, in order, followed by `element`. */
    function Add(element: T): (r: ImmutableArray<T>)
      ensures |r.items| == |items| + 1
      ensures r.items[..|items|] == items
      ensures r.items[|items|] == element
    {
      ImmutableArray(items + [element])
    }
  }

  /** The public parameterless constructor: an array with no elements. */
  function EmptyArray<T>(): (r: ImmutableArray<T>)
    ensures |r.items| == 0
  {
    ImmutableArray([])
  }

  /** A parameter: its name, its type, and its optional and required custom modifiers. */
  datatype ParameterBuilder<Ty> = ParameterBuilder(
    name: string,
    paramType: Ty,
    optionalCustomModifiers: ImmutableArray<Ty>,
    requiredCustomModifiers: ImmutableArray<Ty>)
  {
    function SetName(newName: string): (r: ParameterBuilder<Ty>)
      ensures r.name == newName
      ensures r.paramType == paramType
      ensures r.optionalCustomModifiers == optionalCustomModifiers
      ensures r.requiredCustomModifiers == requiredCustomModifiers
    {
      ParameterBuilder(newName, paramType, optionalCustomModifiers, requiredCustomModifiers)
    }

    function SetType(newType: Ty): (r: ParameterBuilder<Ty>)
      ensures r.paramType == newType
      ensures r.name == name
      ensures r.optionalCustomModifiers == optionalCustomModifiers
      ensures r.requiredCustomModifiers == requiredCustomModifiers
    {
      ParameterBuilder(name, newType, optionalCustomModifiers, requiredCustomModifiers)
    }

    function AddOptionalCustomModifier(modifier: Ty): (r: ParameterBuilder<Ty>)
      ensures r.optionalCustomModifiers.items == optionalCustomModifiers.items + [modifier]
      ensures r.name == name && r.paramType == paramType
      ensures r.requiredCustomModifiers == requiredCustomModifiers
    {
      ParameterBuilder(name, paramType, optionalCustomModifiers.Add(modifier), requiredCustomModifiers)
    }

    function AddRequiredCustomModifier(modifier: Ty): (r: ParameterBuilder<Ty>)
      ensures r.requiredCustomModifiers.items == requiredCustomModifiers.items + [modifier]
      ensures r.name == name && r.paramType == paramType
      ensures r.optionalCustomModifiers == optionalCustomModifiers
    {
      ParameterBuilder(name, paramType, optionalCustomModifiers, requiredCustomModifiers.Add(modifier))
    }
  }

  /** A method signature: its name, its return parameter and its parameters. */
  datatype SignatureBuilder<Ty> = SignatureBuilder(
    name: string,
    returnParameter: ParameterBuilder<Ty>,
    parameters: ImmutableArray<ParameterBuilder<Ty>>)
  {
    function SetName(newName: string): (r: SignatureBuilder<Ty>)
      ensures r.name == newName
      ensures r.returnParameter == returnParameter && r.parameters == parameters
    {
      SignatureBuilder(newName, returnParameter, parameters)
    }

    function SetReturnParameter(newReturn: ParameterBuilder<Ty>): (r: SignatureBuilder<Ty>)
      ensures r.returnParameter == newReturn
      ensures r.name == name && r.parameters == parameters
    {
      SignatureBuilder(name, newReturn, parameters)
    }
  }

  /** The two modifier lists are independent: adding to one and to the other commute. */
  lemma ModifierAddsCommute<Ty>(p: ParameterBuilder<Ty>, optional: Ty, required: Ty)
    ensures p.AddOptionalCustomModifier(optional).AddRequiredCustomModifier(required)
         == p.AddRequiredCustomModifier(required).AddOptionalCustomModifier(optional)
  {
  }
}
