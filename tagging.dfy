/**
  The stack-wide tagging of the shared tagging package
  (shared/aws/tagging/__init__.py): a transformation that every resource
  passes through before it is registered, merging a fixed set of tags into
  the resource's own `tags` property, and the standard tag set the stack
  registers. Registering the transformation with the engine, and how the
  engine finds the project, the stack and the calling file, is not part of
  this model: those arrive as parameters.
 */
module Tagging {
  import opened Values

  /** What `pulumi.ResourceTransformationResult(args.props, args.opts)` carries back to the engine. */
  datatype Transformation = Transformation(props: map<string, Value>, opts: Value)

  /** The arguments a transformation receives: the resource's properties, which it may rewrite, and its options. */
  class TransformArgs {
    /** `args.props` */
    var props: map<string, Value>
    /** `hasattr(args.resource, "tags")`: the kind of resource accepts tags. */
    const resourceHasTags: bool
    /** `args.opts`, passed through untouched. */
    const opts: Value

    constructor (props: map<string, Value>, resourceHasTags: bool, opts: Value)
      ensures this.props == props && this.resourceHasTags == resourceHasTags && this.opts == opts
    {
      this.props := props;
      this.resourceHasTags := resourceHasTags;
      this.opts := opts;
    }
  }

  /**
    `{**(existing or {}), **auto_tags}`: a falsy value (None, an empty
    dictionary) stands for no tags; any other value that is not a
    dictionary cannot be unpacked and raises TypeError. The merge holds
    every key of either side; an automatic tag wins over the resource's own
    tag of the same key, and the resource's other tags are kept as they were.
   */
  function Merged(existing: Value, auto: map<string, Value>): (r: Result<map<string, Value>>)
    ensures r.Ok? <==> existing.Dict? || !Truthy(existing)
    ensures r.Err? ==> r.error == TypeError
    ensures r.Ok? ==> r.value.Keys == (if existing.Dict? then existing.fields.Keys else {}) + auto.Keys
    ensures r.Ok? ==> forall k :: k in auto ==> r.value[k] == auto[k]
    ensures r.Ok? && existing.Dict? ==> forall k :: k in existing.fields && k !in auto ==> r.value[k] == existing.fields[k]
  {
    if !Truthy(existing) then Ok(map[] + auto)
    else if existing.Dict? then Ok(existing.fields + auto)
    else Err(TypeError)
  }

  /** Without tags of its own (None, or an empty dictionary) the resource gets exactly the automatic tags. */
  lemma NoTagsGetsAuto(existing: Value, auto: map<string, Value>)
    requires existing == Null || existing == Dict(map[])
    ensures Merged(existing, auto) == Ok(auto)
  {
    assert map[] + auto == auto;
  }

  /**
    `auto_tag(args, auto_tags)`: for a resource that takes tags, replace its
    `tags` property by the merge and hand back the properties and options;
    for any other resource change nothing and answer None. A resource that
    takes tags but whose properties lack the `tags` entry raises KeyError.
   */
  method AutoTag(args: TransformArgs, auto: map<string, Value>) returns (r: Result<Option<Transformation>>)
    modifies args
    ensures !args.resourceHasTags ==> r == Ok(None) && args.props == old(args.props)
    ensures args.resourceHasTags && "tags" !in old(args.props) ==> r == Err(KeyError) && args.props == old(args.props)
    ensures args.resourceHasTags && "tags" in old(args.props) ==>
      match Merged(old(args.props)["tags"], auto)
      case Err(e) => r == Err(e) && args.props == old(args.props)
      case Ok(tags) =>
        && args.props == old(args.props)["tags" := Dict(tags)]
        && r == Ok(Some(Transformation(args.props, args.opts)))
  {
    if !args.resourceHasTags {
      return Ok(None);
    }
    if "tags" !in args.props {
      return Err(KeyError);
    }
    var tags := Merged(args.props["tags"], auto);
    if tags.Err? {
      return Err(tags.error);
    }
    args.props := args.props["tags" := Dict(tags.value)];
    r := Ok(Some(Transformation(args.props, args.opts)));
  }

  /** The default of `register_standard_tags`' environment parameter. */
  const DefaultEnvironment := "no-environment"

  /**
    The tags `register_standard_tags` registers: the environment, the
    project and stack names, the tool, and the file that called it (None
    when its module cannot be found).
   */
  function StandardTags(environment: string, project: string, stack: string, callerFile: Option<string>): (r: map<string, Value>)
    ensures r.Keys == {"environment", "pulumi-project", "pulumi-stack", "iac-system", "iac-filepath"}
    ensures r["iac-system"] == Str("pulumi")
    ensures r["environment"] == Str(environment)
    ensures r["pulumi-project"] == Str(project) && r["pulumi-stack"] == Str(stack)
    ensures r["iac-filepath"] == if callerFile.Some? then Str(callerFile.value) else Null
  {
    map[
      "environment" := Str(environment),
      "pulumi-project" := Str(project),
      "pulumi-stack" := Str(stack),
      "iac-system" := Str("pulumi"),
      "iac-filepath" := if callerFile.Some? then Str(callerFile.value) else Null]
  }

  /**
    Every resource that takes tags, and whose own tags can be merged, leaves
    the transformation marked as managed by Pulumi, in the environment given.
   */
  lemma StandardTagsApplied(existing: Value, environment: string, project: string, stack: string, callerFile: Option<string>)
    requires Merged(existing, StandardTags(environment, project, stack, callerFile)).Ok?
    ensures var m := Merged(existing, StandardTags(environment, project, stack, callerFile)).value;
      && "iac-system" in m && m["iac-system"] == Str("pulumi")
      && "environment" in m && m["environment"] == Str(environment)
  {
  }
}
