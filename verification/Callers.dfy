/** The authenticated caller of the gateway, as every query sees it. */
module Callers {
  import opened Wrappers
  import opened Uuids

  datatype Auth = Auth(tenant: Uuid, project: Uuid, virtualKey: Uuid, profile: Option<Uuid>)
}
