/**
 The evaluation context: three attribute maps (user, resource,
 environment), each replaced wholesale by its setter and possibly nil.
 */
module Contexts {
  import opened Values

  class Context {
    var user: Attrs
    var resource: Attrs
    var environment: Attrs

    /** `NewContext`: three empty, non-nil maps. */
    constructor ()
      ensures User() == Some(map[]) && Resource() == Some(map[]) && Environment() == Some(map[])
    {
      user, resource, environment := Some(map[]), Some(map[]), Some(map[]);
    }

    function User(): Attrs reads this { user }
    function Resource(): Attrs reads this { resource }
    function Environment(): Attrs reads this { environment }

    /** Replaces the user map (None stands for nil) and returns the same context. */
    method WithUser(user: Attrs) returns (self: Context)
      modifies this
      ensures self == this
      ensures User() == user
      ensures Resource() == old(Resource()) && Environment() == old(Environment())
    {
      this.user := user;
      self := this;
    }

    method WithResource(resource: Attrs) returns (self: Context)
      modifies this
      ensures self == this
      ensures Resource() == resource
      ensures User() == old(User()) && Environment() == old(Environment())
    {
      this.resource := resource;
      self := this;
    }

    method WithEnvironment(env: Attrs) returns (self: Context)
      modifies this
      ensures self == this
      ensures Environment() == env
      ensures User() == old(User()) && Resource() == old(Resource())
    {
      this.environment := env;
      self := this;
    }
  }

  /** The context tests: chained setters return the same instance, each
      getter returns what its setter stored, and nil maps read back as nil. */
  method ContextSettersAndGetters(u: Attrs, r: Attrs, e: Attrs) returns (ctx: Context)
    ensures fresh(ctx)
    ensures ctx.User() == u && ctx.Resource() == r && ctx.Environment() == e
  {
    ctx := new Context();
    var chained := ctx.WithUser(u);
    chained := chained.WithResource(r);
    chained := chained.WithEnvironment(e);
    assert chained == ctx;
  }
}
