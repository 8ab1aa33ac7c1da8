/** The validating webhook of EndpointGroupBinding (pkg/webhoook/endpointgroupbinding/validator.go). */
module EndpointGroupBindingWebhook {

  const KIND := "EndpointGroupBinding"

  datatype Operation = CreateOperation | UpdateOperation | DeleteOperation | ConnectOperation

  /** The raw object of a request: absent, not decodable, or decoded to its Spec.EndpointGroupArn. */
  datatype Raw = Absent | Undecodable | Decoded(arn: string)

  datatype Request = Request(kind: string, operation: Operation, oldObject: Raw, newObject: Raw)

  datatype Response = Response(allowed: bool, code: int)

  /** Validate */
  function Validate(r: Request): Response {
    if r.kind != KIND then Response(false, 400)
    else if r.operation != UpdateOperation then Response(true, 200)
    else if r.oldObject.Absent? then Response(true, 200)
    else if !r.oldObject.Decoded? then Response(false, 500)
    else if !r.newObject.Decoded? then Response(false, 500)
    else if r.oldObject.arn != r.newObject.arn then Response(false, 403)
    else Response(true, 200)
  }

  /** The update of a binding from one ARN to another, as the API server submits it. */
  function UpdateRequest(arn: string, arn': string): Request {
    Request(KIND, UpdateOperation, Decoded(arn), Decoded(arn'))
  }

  /** The ARNs that a binding has had, one after the other, when every update was admitted. */
  ghost predicate Admitted(arns: seq<string>) {
    forall i | 0 < i < |arns| :: Validate(UpdateRequest(arns[i - 1], arns[i])).allowed
  }

  /** However many updates are admitted, the endpoint group stays the one the binding was created with. */
  lemma {:induction false} AdmittedUpdatesKeepArn(arns: seq<string>, i: nat)
    requires Admitted(arns) && i < |arns|
    ensures arns[i] == arns[0]
  {
    if i > 0 {
      assert Validate(UpdateRequest(arns[i - 1], arns[i])).allowed;
      AdmittedUpdatesKeepArn(arns, i - 1);
    }
  }

  /** Which requests are allowed, and what the others are refused with. */
  lemma RefusedExactly(r: Request)
    ensures Validate(r).allowed <==>
            && r.kind == "EndpointGroupBinding"
            && (|| r.operation != UpdateOperation
                || r.oldObject == Absent
                || exists arn :: r.oldObject == Decoded(arn) && r.newObject == Decoded(arn))
    ensures Validate(r).code == 200 <==> Validate(r).allowed
    ensures Validate(r).code == 400 <==> r.kind != "EndpointGroupBinding"
    ensures Validate(r).code == 403 <==>
            && r.kind == "EndpointGroupBinding" && r.operation == UpdateOperation
            && exists arn, arn' :: arn != arn' && r.oldObject == Decoded(arn) && r.newObject == Decoded(arn')
    ensures Validate(r).code == 500 <==>
            && r.kind == "EndpointGroupBinding" && r.operation == UpdateOperation
            && (r.oldObject == Undecodable || (r.oldObject.Decoded? && !r.newObject.Decoded?))
  {
  }
}
