/** A JSON Patch document restricted to the two editable fields of a book
    form, applied in order to a plain form value. */
module JsonPatch {
  import opened Common
  import opened Entities

  datatype BookField = Title | Description

  /** `replace` sets the field to the given value; `remove` on an object
      property resets it to its default, which for a string is null. */
  datatype PatchOperation =
    | Replace(path: BookField, value: NString)
    | Remove(path: BookField)

  type PatchDocument = seq<PatchOperation>

  function Get(f: BookForm, field: BookField): NString
  {
    match field
    case Title => f.title
    case Description => f.description
  }

  function Set(f: BookForm, field: BookField, v: NString): (g: BookForm)
    ensures Get(g, field) == v
    ensures forall other :: other != field ==> Get(g, other) == Get(f, other)
  {
    match field
    case Title => f.(title := v)
    case Description => f.(description := v)
  }

  /** The value an operation writes. */
  function Written(op: PatchOperation): NString
  {
    match op
    case Replace(_, v) => v
    case Remove(_) => None
  }

  function ApplyOperation(op: PatchOperation, f: BookForm): (g: BookForm)
    ensures Get(g, op.path) == Written(op)
    ensures forall other :: other != op.path ==> Get(g, other) == Get(f, other)
  {
    Set(f, op.path, Written(op))
  }

  /** No operation of the document targets the field. */
  predicate Untouched(doc: PatchDocument, field: BookField)
  {
    forall i :: 0 <= i < |doc| ==> doc[i].path != field
  }

  /** Operation `i` is the last one that targets its field. */
  predicate LastWriteAt(doc: PatchDocument, i: int)
    requires 0 <= i < |doc|
  {
    forall j :: i < j < |doc| ==> doc[j].path != doc[i].path
  }

  /** `patchDocument.ApplyTo(form)`: the operations, applied first to last. */
  function ApplyTo(doc: PatchDocument, f: BookForm): (g: BookForm)
    ensures |doc| > 0 ==> Get(g, doc[|doc| - 1].path) == Written(doc[|doc| - 1])
    decreases |doc|
  {
    if doc == [] then f else ApplyTo(doc[1..], ApplyOperation(doc[0], f))
  }

  /** A field no operation targets keeps its value. */
  lemma {:induction false} ApplyToKeepsUntouched(doc: PatchDocument, f: BookForm, field: BookField)
    requires Untouched(doc, field)
    ensures Get(ApplyTo(doc, f), field) == Get(f, field)
    decreases |doc|
  {
    if doc != [] {
      assert doc[0].path != field;
      assert Untouched(doc[1..], field) by {
        forall i | 0 <= i < |doc[1..]| ensures doc[1..][i].path != field {
          assert doc[1..][i] == doc[i + 1];
        }
      }
      ApplyToKeepsUntouched(doc[1..], ApplyOperation(doc[0], f), field);
    }
  }

  /** A field some operation targets ends with the value the last such
      operation writes. */
  lemma {:induction false} ApplyToLastWrite(doc: PatchDocument, f: BookForm, i: int)
    requires 0 <= i < |doc| && LastWriteAt(doc, i)
    ensures Get(ApplyTo(doc, f), doc[i].path) == Written(doc[i])
    decreases |doc|
  {
    var rest := doc[1..];
    if i == 0 {
      assert Untouched(rest, doc[0].path) by {
        forall j | 0 <= j < |rest| ensures rest[j].path != doc[0].path {
          assert rest[j] == doc[j + 1];
        }
      }
      ApplyToKeepsUntouched(rest, ApplyOperation(doc[0], f), doc[0].path);
    } else {
      assert rest[i - 1] == doc[i];
      assert LastWriteAt(rest, i - 1) by {
        forall j | i - 1 < j < |rest| ensures rest[j].path != rest[i - 1].path {
          assert rest[j] == doc[j + 1];
        }
      }
      ApplyToLastWrite(rest, ApplyOperation(doc[0], f), i - 1);
    }
  }

  /** Applying two documents one after the other is applying their
      concatenation. */
  lemma {:induction false} ApplyToConcat(a: PatchDocument, b: PatchDocument, f: BookForm)
    ensures ApplyTo(a + b, f) == ApplyTo(b, ApplyTo(a, f))
    decreases |a|
  {
    if a == [] {
      assert a + b == b;
    } else {
      var ab := a + b;
      assert ab[0] == a[0] && ab[1..] == a[1..] + b;
      var f1 := ApplyOperation(a[0], f);
      assert ApplyTo(ab, f) == ApplyTo(a[1..] + b, f1);
      ApplyToConcat(a[1..], b, f1);
    }
  }
}
