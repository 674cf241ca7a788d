/** The part of `SQLiteRows.Next` that reads a row: what a bound value comes back as. */
module Columns {
  import opened Text
  import opened Binder

  /** A declared column type, in lower case as `declTypes` keeps it. */
  predicate IsTime(decl: string) {
    decl == "timestamp" || decl == "datetime" || decl == "date"
  }

  /** One column. `asTime` is what integers and texts in a time column are made into. */
  function Read(v: SqlValue, decl: string, asTime: SqlValue -> GoValue): GoValue {
    match v
    case SqlInt(i) =>
      if IsTime(decl) then asTime(v) else if decl == "boolean" then GoValue.Boolean(i > 0) else GoValue.Int(i)
    case SqlReal(r) => Float(r)
    case SqlBlob(b) => Blob(b)
    case SqlNull => Nil
    case SqlText(t) => if IsTime(decl) then asTime(v) else Str(t)
  }

  /** The loop over the columns. */
  method ReadRow(row: seq<SqlValue>, decls: seq<string>, asTime: SqlValue -> GoValue, dest: array<GoValue>)
    requires dest.Length <= |row| == |decls|
    modifies dest
    ensures forall i :: 0 <= i < dest.Length ==> dest[i] == Read(row[i], decls[i], asTime)
  {
    for i := 0 to dest.Length
      invariant forall k :: 0 <= k < i ==> dest[k] == Read(row[k], decls[k], asTime)
    {
      match row[i]
      case SqlInt(n) =>
        if decls[i] == "timestamp" || decls[i] == "datetime" || decls[i] == "date" {
          dest[i] := asTime(row[i]);
        } else if decls[i] == "boolean" {
          dest[i] := GoValue.Boolean(n > 0);
        } else {
          dest[i] := GoValue.Int(n);
        }
      case SqlReal(r) => dest[i] := Float(r);
      case SqlBlob(b) => dest[i] := Blob(b);
      case SqlNull => dest[i] := Nil;
      case SqlText(t) =>
        if decls[i] == "timestamp" || decls[i] == "datetime" || decls[i] == "date" {
          dest[i] := asTime(row[i]);
        } else {
          dest[i] := Str(t);
        }
    }
  }

  /** A value comes back as it was bound exactly if it is not a nil blob, which comes back as nil, or a time, which
      comes back as its text, and if truth values, and no integers, meet a column declared boolean. */
  lemma ReadsBackIff(v: GoValue, decl: string, asTime: SqlValue -> GoValue)
    requires !IsTime(decl)
    ensures Read(ToSql(v), decl, asTime) == v
       <==> && !v.NilBlob? && !v.Time?
            && (v.Boolean? ==> decl == "boolean")
            && (v.Int? ==> decl != "boolean")
    ensures v.NilBlob? ==> Read(ToSql(v), decl, asTime) == Nil
    ensures v.Time? ==> Read(ToSql(v), decl, asTime) == Str(v.formatted)
    ensures v.Boolean? && decl != "boolean" ==> Read(ToSql(v), decl, asTime) == GoValue.Int(if v.b then 1 else 0)
    ensures v.Int? && decl == "boolean" ==> Read(ToSql(v), decl, asTime) == GoValue.Boolean(v.i > 0)
  {
  }

  /** Through the whole binding: the argument a parameter belongs to is what a column showing the parameter reads. */
  lemma PositionalReadsBack(
    params: Params, limit: nat, init: seq<SqlValue>, args: seq<Arg>, p: nat, asTime: SqlValue -> GoValue)
    requires |args| == |params| == |init| && BindAll(params, limit, init, args, |args|).ok && p < |params|
    requires forall k :: 0 <= k < |args| ==> args[k].name == "" && args[k].ordinal == k + 1
    requires !args[p].value.Time? && !args[p].value.NilBlob?
    ensures var decl := if args[p].value.Boolean? then "boolean" else "";
      Read(BindAll(params, limit, init, args, |args|).at[p], decl, asTime) == args[p].value
  {
    hide BindAll, ToSql, Read;
    PositionalBinding(params, limit, init, args, p);
    var decl := if args[p].value.Boolean? then "boolean" else "";
    assert decl == "boolean" <==> args[p].value.Boolean?;
    ReadsBackIff(args[p].value, decl, asTime);
  }

  /** The same for a named argument. */
  lemma NamedReadsBack(
    params: Params, limit: nat, init: seq<SqlValue>, args: seq<Arg>, p: nat, n: string, prefix: string, i: nat,
    asTime: SqlValue -> GoValue)
    requires |init| == |params| && BindAll(params, limit, init, args, |args|).ok && Distinct(params)
    requires forall k :: 0 <= k < |args| ==> args[k].name != ""
    requires forall k, l :: 0 <= k < l < |args| ==> args[k].name != args[l].name
    requires prefix in [":", "@", "$"]
    requires p < |params| && params[p] == Some(prefix + n)
    requires i < |args| && args[i].name == n && !args[i].value.Time? && !args[i].value.NilBlob?
    ensures var decl := if args[i].value.Boolean? then "boolean" else "";
      Read(BindAll(params, limit, init, args, |args|).at[p], decl, asTime) == args[i].value
  {
    hide BindAll, ToSql, Read;
    NamedBinding(params, limit, init, args, p, n, prefix, i);
    var decl := if args[i].value.Boolean? then "boolean" else "";
    assert decl == "boolean" <==> args[i].value.Boolean?;
    ReadsBackIff(args[i].value, decl, asTime);
  }
}
