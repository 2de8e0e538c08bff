/**
 * The exceptions the order handlers throw, as error kinds. Messages are not modelled; the reason
 * records which guard fired.
 */
module Failures {
  import opened OrderEntity

  datatype Reason =
    | OrderMissing                          // "order not found", also used for another user's order
    | ProductMissing(productId: string)
    | ProductInactive(productId: string)
    | InsufficientStock(productId: string)
    | NotEditable(status: OrderStatus)      // item replacement outside PENDING / CONFIRMED
    | NotUpdatable                          // status change of a DELIVERED or CANCELLED order

  datatype Failure =
    | NotFound(reason: Reason)              // NotFoundException
    | Forbidden                             // ForbiddenException
    | BadRequest(reason: Reason)            // BadRequestException
    | RecordMissing                         // the database refuses to update a row that does not exist
}
